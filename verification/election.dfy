// Bully election, lowest id wins: the handlers of one node, and a stable period made of them,
// which starts with accurate alive flags, loses no message and has no older announcement.
module Election {
  import opened Bytes

  type Id = nat

  /** What a message handler starts or answers. */
  datatype Reaction = Reaction(reply: Option<Id>, elect: bool)

  /** The first lower peer, in configured order, that is believed alive and answers. */
  function FirstAnswer(self: Id, peers: seq<Id>, alive: set<Id>, answers: set<Id>): Option<Id> {
    if peers == [] then None
    else if peers[0] < self && peers[0] in alive && peers[0] in answers then Some(peers[0])
    else FirstAnswer(self, peers[1..], alive, answers)
  }

  lemma {:induction false} FirstAnswerIff(self: Id, peers: seq<Id>, alive: set<Id>, answers: set<Id>)
    ensures FirstAnswer(self, peers, alive, answers).None?
            <==> forall p <- peers :: !(p < self && p in alive && p in answers)
    ensures match FirstAnswer(self, peers, alive, answers)
            case None => true
            case Some(p) => p in peers && p < self && p in alive && p in answers
  {
    if peers != [] {
      FirstAnswerIff(self, peers[1..], alive, answers);
      assert peers == [peers[0]] + peers[1..];
    }
  }

  /** `p` stands, in configured order, in front of all other lower peers that are believed alive and answer. */
  ghost predicate IsFirst(self: Id, peers: seq<Id>, alive: set<Id>, answers: set<Id>, p: Id) {
    exists i :: 0 <= i < |peers| && peers[i] == p && p < self && p in alive && p in answers
                && forall j :: 0 <= j < i ==> !(peers[j] < self && peers[j] in alive && peers[j] in answers)
  }

  lemma {:induction false} FirstAnswerFirst(self: Id, peers: seq<Id>, alive: set<Id>, answers: set<Id>)
    ensures match FirstAnswer(self, peers, alive, answers)
            case Some(p) => IsFirst(self, peers, alive, answers, p)
            case None => forall p :: !IsFirst(self, peers, alive, answers, p)
  {
    if peers != [] {
      var rest := peers[1..];
      FirstAnswerFirst(self, rest, alive, answers);
      if peers[0] < self && peers[0] in alive && peers[0] in answers {
        assert IsFirst(self, peers, alive, answers, peers[0]);
      } else {
        forall p ensures IsFirst(self, peers, alive, answers, p) <==> IsFirst(self, rest, alive, answers, p) {
          FirstInRest(self, peers, alive, answers, p);
        }
      }
    }
  }

  lemma FirstInRest(self: Id, peers: seq<Id>, alive: set<Id>, answers: set<Id>, p: Id)
    requires peers != [] && !(peers[0] < self && peers[0] in alive && peers[0] in answers)
    ensures IsFirst(self, peers, alive, answers, p) <==> IsFirst(self, peers[1..], alive, answers, p)
  {
    var rest := peers[1..];
    if i :| 0 <= i < |peers| && peers[i] == p && p < self && p in alive && p in answers
            && forall j :: 0 <= j < i ==> !(peers[j] < self && peers[j] in alive && peers[j] in answers)
    {
      assert i > 0 && rest[i - 1] == p;
      assert forall j :: 0 <= j < i - 1 ==> rest[j] == peers[j + 1];
    }
    if i :| 0 <= i < |rest| && rest[i] == p && p < self && p in alive && p in answers
            && forall j :: 0 <= j < i ==> !(rest[j] < self && rest[j] in alive && rest[j] in answers)
    {
      assert peers[i + 1] == p;
      assert forall j :: 0 < j < i + 1 ==> peers[j] == rest[j - 1];
    }
  }

  /** What one node believes. */
  datatype View = View(leader: Id, isLeader: bool, alive: set<Id>, missed: map<Id, nat>) {
    function Missed(p: Id): nat {
      if p in missed then missed[p] else 0
    }
  }

  function Heard(v: View, peers: seq<Id>, p: Id): View {
    if p in peers then v.(alive := v.alive + {p}, missed := v.missed[p := 0]) else v
  }

  /** handlePing: the sender is alive; a claim of another leader starts an election. */
  function Pinged(v: View, peers: seq<Id>, sender: Id, claimed: int): (View, Reaction) {
    (Heard(v, peers, sender), Reaction(Some(v.leader), claimed >= 0 && claimed != v.leader))
  }

  /** handleElection: only a higher peer is answered, by taking the election over. */
  function Challenged(v: View, self: Id, sender: Id): Reaction {
    if sender > self then Reaction(Some(v.leader), true) else Reaction(None, false)
  }

  function Coordinated(v: View, self: Id, claimed: Id): View {
    v.(leader := claimed, isLeader := claimed == self)
  }

  /** markPeerDead: the third missed ping in a row; the leader's death starts an election. */
  function MarkedDead(v: View, peers: seq<Id>, p: Id): (View, bool) {
    if p !in peers then (v, false)
    else
      var missed := v.missed[p := v.Missed(p) + 1];
      if missed[p] >= 3 && p in v.alive then (v.(alive := v.alive - {p}, missed := missed), p == v.leader)
      else (v.(missed := missed), false)
  }

  /** startElection: defer to the first lower live peer that answers, else become the leader. */
  function Started(v: View, self: Id, peers: seq<Id>, answers: set<Id>): (View, Option<Id>) {
    var deferred := FirstAnswer(self, peers, v.alive, answers);
    (if deferred.Some? then v else v.(leader := self, isLeader := true), deferred)
  }

  /** A node that stops answering: of the pings it misses in a row, the third takes it for dead and, exactly if it
      was the leader, starts an election; none before and none after does. */
  lemma {:induction false} MissesElect(v: View, peers: seq<Id>, p: Id, n: nat)
    requires p in peers && p in v.alive && v.Missed(p) == 0 && n > 0
    ensures var (before, after) := (Missing(v, peers, p, n - 1), MarkedDead(Missing(v, peers, p, n - 1), peers, p));
            && (p in after.0.alive <==> n < 3) && after.0.Missed(p) == n && after.0.leader == v.leader
            && (after.1 <==> n == 3 && p == v.leader)
    ensures forall q :: q != p ==> (q in Missing(v, peers, p, n).alive <==> q in v.alive)
  {
    if n > 1 {
      MissesElect(v, peers, p, n - 1);
    }
  }

  /** After n more missed pings of p and nothing else. */
  function Missing(v: View, peers: seq<Id>, p: Id, n: nat): View {
    if n == 0 then v else MarkedDead(Missing(v, peers, p, n - 1), peers, p).0
  }

  class Bully {
    const self: Id
    const peers: seq<Id>
    var leader: Id
    var isLeader: bool
    var alive: set<Id>
    var missedPings: map<Id, nat>

    constructor (self: Id, peers: seq<Id>)
      ensures this.self == self && this.peers == peers
      ensures Believes() == View(0, self == 0, set p <- peers, map[])
    {
      this.self, this.peers := self, peers;
      leader, isLeader, alive, missedPings := 0, self == 0, set p <- peers, map[];
    }

    function Believes(): View
      reads this
    {
      View(leader, isLeader, alive, missedPings)
    }

    /** handlePong, and what every message does first. */
    method HandlePong(p: Id)
      modifies this`alive, this`missedPings
      ensures Believes() == Heard(old(Believes()), peers, p)
      ensures if p in peers then alive == old(alive) + {p} && missedPings == old(missedPings)[p := 0]
              else alive == old(alive) && missedPings == old(missedPings)
    {
      if p in peers {
        alive := alive + {p};
        missedPings := missedPings[p := 0];
      }
    }

    method HandlePing(sender: Id, claimed: int) returns (r: Reaction)
      modifies this`alive, this`missedPings
      ensures (Believes(), r) == Pinged(old(Believes()), peers, sender, claimed)
      ensures r.reply == Some(leader) && (r.elect <==> claimed >= 0 && claimed != leader)
      ensures sender in peers ==> sender in alive && Believes().Missed(sender) == 0
      ensures forall p :: p != sender || p !in peers ==>
                (p in alive <==> p in old(alive)) && Believes().Missed(p) == old(Believes()).Missed(p)
    {
      HandlePong(sender);
      r := Reaction(Some(leader), claimed >= 0 && claimed != leader);
    }

    /** A higher peer's election is answered and taken over, no other is. */
    method HandleElection(sender: Id) returns (r: Reaction)
      ensures r == Challenged(Believes(), self, sender)
      ensures r.elect <==> r.reply.Some?
      ensures r.elect <==> sender > self
    {
      r := Reaction(None, false);
      if sender > self {
        r := Reaction(Some(leader), true);
      }
    }

    /** The announced leader is adopted; flags stay as accurate as they were, and the node knows whether it leads. */
    method HandleCoordinator(claimed: Id)
      modifies this`leader, this`isLeader
      ensures Believes() == Coordinated(old(Believes()), self, claimed)
      ensures leader == claimed && (isLeader <==> leader == self)
      ensures forall live :: Accurate(live, peers, self, old(Believes())) ==> Accurate(live, peers, self, Believes())
    {
      leader := claimed;
      isLeader := claimed == self;
    }

    method MarkPeerDead(p: Id) returns (elect: bool)
      modifies this`alive, this`missedPings
      ensures (Believes(), elect) == MarkedDead(old(Believes()), peers, p)
      ensures elect <==> p in peers && p == leader && p in old(alive) && old(Believes()).Missed(p) >= 2
      ensures alive == if p in peers && old(Believes()).Missed(p) >= 2 then old(alive) - {p} else old(alive)
      ensures p in peers ==> Believes().Missed(p) == old(Believes()).Missed(p) + 1
      ensures forall q :: q != p || q !in peers ==> Believes().Missed(q) == old(Believes()).Missed(q)
    {
      if p !in peers {
        return false;
      }
      missedPings := missedPings[p := Believes().Missed(p) + 1];
      elect := false;
      if missedPings[p] >= 3 && p in alive {
        alive := alive - {p};
        elect := p == leader;
      }
    }

    method StartElection(answers: set<Id>) returns (deferred: Option<Id>)
      modifies this`leader, this`isLeader
      ensures (Believes(), deferred) == Started(old(Believes()), self, peers, answers)
      ensures match deferred
              case Some(p) => IsFirst(self, peers, alive, answers, p) && Believes() == old(Believes())
              case None =>
                && (forall p :: !IsFirst(self, peers, alive, answers, p))
                && leader == self && isLeader && alive == old(alive) && missedPings == old(missedPings)
    {
      FirstAnswerFirst(self, peers, alive, answers);
      hide IsFirst;
      for i := 0 to |peers|
        invariant FirstAnswer(self, peers, alive, answers) == FirstAnswer(self, peers[i..], alive, answers)
      {
        assert peers[i..][0] == peers[i] && peers[i..][1..] == peers[i + 1..];
        if peers[i] < self && peers[i] in alive && peers[i] in answers {
          return Some(peers[i]);
        }
      }
      leader, isLeader := self, true;
      return None;
    }
  }

  // ---------------------------------------------------------------- a stable period

  /** The nodes that run. `elections` counts the elections each node has still to start, `coordinators` the
      announcements under way as (receiver, leader); `announced` says that a node has become leader. */
  datatype State = State(nodes: map<Id, View>, elections: multiset<Id>, coordinators: multiset<(Id, Id)>,
      announced: bool)

  /** Everyone is configured with everyone else. */
  ghost predicate Stable(live: set<Id>, order: Id -> seq<Id>) {
    live != {} && forall n <- live :: n !in order(n) && forall p <- live :: p != n ==> p in order(n)
  }

  /** A node knows who runs, and whether it leads. */
  ghost predicate Accurate(live: set<Id>, peers: seq<Id>, n: Id, v: View) {
    v.isLeader == (v.leader == n) && forall p <- peers :: p in v.alive <==> p in live
  }

  /** Node n starts an election: the lower peer it defers to takes it over, or it announces itself. */
  ghost predicate Elect(live: set<Id>, order: Id -> seq<Id>, s: State, n: Id, s': State) {
    && n in live && s.elections[n] > 0 && live <= s.nodes.Keys
    && var rest := s.elections - multiset{n};
       var (v, deferred) := Started(s.nodes[n], n, order(n), live);
       match deferred
       case Some(c) =>
         && c in live
         && s' == s.(nodes := s.nodes[n := v],
                     elections := rest + if Challenged(s.nodes[c], c, n).elect then multiset{c} else multiset{})
       case None =>
         s' == State(s.nodes[n := v], rest, s.coordinators + multiset(set p <- live | p in order(n) :: (p, n)), true)
  }

  ghost predicate Announce(live: set<Id>, s: State, n: Id, l: Id, s': State) {
    && n in live && s.coordinators[(n, l)] > 0 && n in s.nodes
    && s' == s.(nodes := s.nodes[n := Coordinated(s.nodes[n], n, l)], coordinators := s.coordinators - multiset{(n, l)})
  }

  /** A ping between two nodes that run, and its pong. */
  ghost predicate Ping(live: set<Id>, order: Id -> seq<Id>, s: State, from: Id, to: Id, s': State) {
    && from in live && to in live && from != to && from in s.nodes && to in s.nodes
    && var (v, r) := Pinged(s.nodes[to], order(to), from, s.nodes[from].leader);
       s' == s.(nodes := s.nodes[to := v][from := Heard(s.nodes[from], order(from), to)],
                elections := if r.elect then s.elections + multiset{to} else s.elections)
  }

  /** A ping of a node that does not run. */
  ghost predicate Miss(live: set<Id>, order: Id -> seq<Id>, s: State, n: Id, p: Id, s': State) {
    && n in live && p !in live && n in s.nodes
    && var (v, elect) := MarkedDead(s.nodes[n], order(n), p);
       s' == s.(nodes := s.nodes[n := v], elections := if elect then s.elections + multiset{n} else s.elections)
  }

  ghost predicate Next(live: set<Id>, order: Id -> seq<Id>, s: State, s': State) {
    || (exists n :: Elect(live, order, s, n, s'))
    || (exists n, l :: Announce(live, s, n, l, s'))
    || (exists from, to :: Ping(live, order, s, from, to, s'))
    || (exists n, p :: Miss(live, order, s, n, p, s'))
  }

  /** The period starts with any elections and any leaders believed in, but with accurate flags and without
      announcements under way. */
  ghost predicate IsRun(live: set<Id>, order: Id -> seq<Id>, run: seq<State>) {
    && |run| > 0 && run[0].nodes.Keys == live && run[0].coordinators == multiset{} && !run[0].announced
    && (forall n <- live :: Accurate(live, order(n), n, run[0].nodes[n]))
    && (forall n <- run[0].elections :: n in live)
    && forall i :: 0 <= i < |run| - 1 ==> Next(live, order, run[i], run[i + 1])
  }

  ghost predicate IsMin(live: set<Id>, m: Id) {
    m in live && forall n <- live :: m <= n
  }

  /** An election is handed to a strictly lower live node, and not handed on exactly at the minimum. */
  lemma DeferredIff(live: set<Id>, order: Id -> seq<Id>, n: Id)
    requires Stable(live, order) && n in live
    ensures FirstAnswer(n, order(n), live, live).None? <==> IsMin(live, n)
    ensures match FirstAnswer(n, order(n), live, live)
            case None => true
            case Some(c) => c in live && c < n
  {
    FirstAnswerIff(n, order(n), live, live);
  }

  /** A cascade: every node in it hands the election to the next. */
  ghost predicate Cascade(live: set<Id>, order: Id -> seq<Id>, path: seq<Id>) {
    && path != [] && path[0] in live
    && forall i :: 0 <= i < |path| - 1 ==> FirstAnswer(path[i], order(path[i]), live, live) == Some(path[i + 1])
  }

  /** Cascades descend, so they are no longer than their first id allows. */
  lemma {:induction false} CascadeDescends(live: set<Id>, order: Id -> seq<Id>, path: seq<Id>)
    requires Stable(live, order) && Cascade(live, order, path)
    ensures path[|path| - 1] in live && path[|path| - 1] + |path| <= path[0] + 1
  {
    if |path| > 1 {
      var init := path[..|path| - 1];
      CascadeDescends(live, order, init);
      assert init[|init| - 1] == path[|path| - 2];
      DeferredIff(live, order, path[|path| - 2]);
    }
  }

  /** From every live node there is a cascade that ends, at the minimum. */
  lemma {:induction false} CascadeEnds(live: set<Id>, order: Id -> seq<Id>, n: Id) returns (path: seq<Id>)
    requires Stable(live, order) && n in live
    ensures Cascade(live, order, path) && path[0] == n && IsMin(live, path[|path| - 1])
    decreases n
  {
    DeferredIff(live, order, n);
    match FirstAnswer(n, order(n), live, live) {
      case None => path := [n];
      case Some(c) =>
        var rest := CascadeEnds(live, order, c);
        path := [n] + rest;
    }
  }

  // ---------------------------------------------------------------- agreement

  ghost predicate Invariant(live: set<Id>, order: Id -> seq<Id>, m: Id, s: State) {
    && s.nodes.Keys == live && (forall n <- s.elections :: n in live)
    && (forall n <- live :: Accurate(live, order(n), n, s.nodes[n]))
    && (forall c <- s.coordinators :: c.0 in live && c.1 == m)
    && m in live
    && (s.announced ==>
          s.nodes[m].leader == m && forall n <- live :: s.nodes[n].leader == m || (n, m) in s.coordinators)
  }

  /** With accurate flags a node defers as if it knew who runs. */
  lemma AccurateAnswer(live: set<Id>, n: Id, peers: seq<Id>, alive: set<Id>)
    requires forall p <- peers :: p in alive <==> p in live
    ensures FirstAnswer(n, peers, alive, live) == FirstAnswer(n, peers, live, live)
  {
    if peers != [] {
      assert peers == [peers[0]] + peers[1..];
      AccurateAnswer(live, n, peers[1..], alive);
    }
  }

  lemma NodeAccurate(live: set<Id>, order: Id -> seq<Id>, m: Id, s: State, n: Id)
    requires Invariant(live, order, m, s) && n in live
    ensures n in s.nodes && Accurate(live, order(n), n, s.nodes[n]) && s.nodes.Keys == live
  {
    hide Accurate;
  }

  /** Where a started election goes: on to a strictly lower node, or to the node itself, if it is the minimum. */
  lemma StartedAt(live: set<Id>, order: Id -> seq<Id>, m: Id, n: Id, v: View)
    requires Stable(live, order) && IsMin(live, m) && n in live && Accurate(live, order(n), n, v)
    ensures var (v', deferred) := Started(v, n, order(n), live);
            && (n == m ==> deferred.None? && v' == v.(leader := m, isLeader := true))
            && (n != m ==> deferred.Some? && deferred.value in live && deferred.value < n && v' == v)
  {
    DeferredIff(live, order, n);
    AccurateAnswer(live, n, order(n), v.alive);
    hide FirstAnswer, Stable;
  }

  /** The announcements of the minimum. */
  function Told(live: set<Id>, m: Id): multiset<(Id, Id)> {
    multiset(set p <- live | p != m :: (p, m))
  }

  lemma EveryoneIsTold(live: set<Id>, order: Id -> seq<Id>, n: Id)
    requires Stable(live, order) && n in live
    ensures multiset(set p <- live | p in order(n) :: (p, n)) == Told(live, n)
  {
    assert (set p <- live | p in order(n) :: (p, n)) == set p <- live | p != n :: (p, n);
  }

  /** An election is taken over by a strictly lower node, or ends at the minimum. */
  lemma ElectCases(live: set<Id>, order: Id -> seq<Id>, m: Id, s: State, n: Id, s': State)
    requires Stable(live, order) && IsMin(live, m) && Invariant(live, order, m, s) && Elect(live, order, s, n, s')
    ensures n in live && s.elections[n] > 0
    ensures n != m ==> exists c: Id :: c in live && s' == s.(elections := s.elections - multiset{n} + multiset{c})
    ensures n == m ==>
              s' == State(s.nodes[m := s.nodes[m].(leader := m, isLeader := true)], s.elections - multiset{m},
                          s.coordinators + Told(live, m), true)
  {
    hide Started, Told, Stable, IsMin, Invariant, Accurate;
    NodeAccurate(live, order, m, s, n);
    StartedAt(live, order, m, n, s.nodes[n]);
    EveryoneIsTold(live, order, n);
    if n != m {
      var c := Started(s.nodes[n], n, order(n), live).1.value;
      assert s.nodes[n := s.nodes[n]] == s.nodes;
      assert c in live && s' == s.(elections := s.elections - multiset{n} + multiset{c});
    }
  }

  lemma FewerElections(live: set<Id>, e: multiset<Id>, n: Id)
    requires (forall k <- e :: k in live) && e[n] > 0
    ensures |e - multiset{n}| == |e| - 1 && forall k <- e - multiset{n} :: k in live
    ensures forall c: Id :: c in live ==> forall k <- e - multiset{n} + multiset{c} :: k in live
  {
  }

  /** The minimum becomes leader. */
  lemma LeadsKeeps(live: set<Id>, order: Id -> seq<Id>, m: Id, s: State, rest: multiset<Id>)
    requires IsMin(live, m) && Invariant(live, order, m, s) && forall k <- rest :: k in live
    ensures Invariant(live, order, m, State(s.nodes[m := s.nodes[m].(leader := m, isLeader := true)], rest,
                                            s.coordinators + Told(live, m), true))
  {
    var nodes := s.nodes[m := s.nodes[m].(leader := m, isLeader := true)];
    forall p <- live ensures nodes[p].leader == m || (p, m) in s.coordinators + Told(live, m) {
      if p != m {
        assert (p, m) in set q <- live | q != m :: (q, m);
      }
    }
    forall p <- live ensures Accurate(live, order(p), p, nodes[p]) {
      NodeAccurate(live, order, m, s, p);
    }
    assert nodes.Keys == live;
  }

  lemma ElectKeeps(live: set<Id>, order: Id -> seq<Id>, m: Id, s: State, n: Id, s': State)
    requires Stable(live, order) && IsMin(live, m) && Invariant(live, order, m, s) && Elect(live, order, s, n, s')
    ensures Invariant(live, order, m, s')
  {
    hide Elect, Stable, Accurate, Told, IsMin, Invariant;
    ElectCases(live, order, m, s, n, s');
    ElectionsLive(live, order, m, s);
    FewerElections(live, s.elections, n);
    if n == m {
      LeadsKeeps(live, order, m, s, s.elections - multiset{m});
    } else {
      OtherElections(live, order, m, s, s'.elections);
    }
  }

  lemma OtherElections(live: set<Id>, order: Id -> seq<Id>, m: Id, s: State, elections: multiset<Id>)
    requires Invariant(live, order, m, s) && forall k <- elections :: k in live
    ensures Invariant(live, order, m, s.(elections := elections))
  {
  }

  lemma AnnounceKeeps(live: set<Id>, order: Id -> seq<Id>, m: Id, s: State, n: Id, l: Id, s': State)
    requires IsMin(live, m) && Invariant(live, order, m, s) && Announce(live, s, n, l, s')
    ensures Invariant(live, order, m, s')
  {
    assert (n, l) in s.coordinators;
    forall p <- live | s.announced ensures s'.nodes[p].leader == m || (p, m) in s'.coordinators {
      if p != n && s.nodes[p].leader != m {
        assert s'.coordinators[(p, m)] == s.coordinators[(p, m)];
      }
    }
    forall p <- live ensures Accurate(live, order(p), p, s'.nodes[p]) {
      assert Accurate(live, order(p), p, s.nodes[p]);
    }
  }

  lemma HeardAccurate(live: set<Id>, peers: seq<Id>, n: Id, v: View, p: Id)
    requires Accurate(live, peers, n, v) && p in live
    ensures Accurate(live, peers, n, Heard(v, peers, p)) && Heard(v, peers, p).leader == v.leader
  {
  }

  lemma MarkedAccurate(live: set<Id>, peers: seq<Id>, n: Id, v: View, p: Id)
    requires Accurate(live, peers, n, v) && p !in live
    ensures Accurate(live, peers, n, MarkedDead(v, peers, p).0) && MarkedDead(v, peers, p).0.leader == v.leader
    ensures !MarkedDead(v, peers, p).1
  {
  }

  lemma PingFrame(live: set<Id>, order: Id -> seq<Id>, s: State, from: Id, to: Id, s': State, n: Id)
    requires Ping(live, order, s, from, to, s') && n in s.nodes
    ensures from in live && to in live && s'.nodes.Keys == s.nodes.Keys
    ensures s'.coordinators == s.coordinators && s'.announced == s.announced
    ensures s'.nodes[n] in {s.nodes[n], Heard(s.nodes[n], order(n), from), Heard(s.nodes[n], order(n), to)}
    ensures s'.elections == s.elections || s'.elections == s.elections + multiset{to}
  {
    hide Heard;
  }

  lemma MissFrame(live: set<Id>, order: Id -> seq<Id>, s: State, k: Id, p: Id, s': State, n: Id)
    requires Miss(live, order, s, k, p, s') && n in s.nodes
    ensures k in live && p !in live && s'.nodes.Keys == s.nodes.Keys
    ensures s'.coordinators == s.coordinators && s'.announced == s.announced
    ensures s'.nodes[n] in {s.nodes[n], MarkedDead(s.nodes[n], order(n), p).0}
    ensures s'.elections == s.elections || s'.elections == s.elections + multiset{k}
  {
    hide MarkedDead;
  }

  /** Pings, answered or not, change no belief about leaders, and accurate flags stay accurate. */
  lemma PingNodes(live: set<Id>, order: Id -> seq<Id>, m: Id, s: State, s': State, n: Id)
    requires Invariant(live, order, m, s) && n in live
    requires (exists from, to :: Ping(live, order, s, from, to, s')) || (exists k, p :: Miss(live, order, s, k, p, s'))
    ensures s'.nodes.Keys == live && s'.coordinators == s.coordinators && s'.announced == s.announced
    ensures s'.nodes[n].leader == s.nodes[n].leader && Accurate(live, order(n), n, s'.nodes[n])
    ensures (forall k <- s'.elections :: k in live)
  {
    hide Accurate, Heard, MarkedDead, Ping, Miss, Invariant;
    NodeAccurate(live, order, m, s, n);
    ElectionsLive(live, order, m, s);
    if from, to :| Ping(live, order, s, from, to, s') {
      PingFrame(live, order, s, from, to, s', n);
      HeardAccurate(live, order(n), n, s.nodes[n], from);
      HeardAccurate(live, order(n), n, s.nodes[n], to);
    } else {
      var k, p :| Miss(live, order, s, k, p, s');
      MissFrame(live, order, s, k, p, s', n);
      MarkedAccurate(live, order(n), n, s.nodes[n], p);
    }
  }

  lemma ElectionsLive(live: set<Id>, order: Id -> seq<Id>, m: Id, s: State)
    requires Invariant(live, order, m, s)
    ensures forall k <- s.elections :: k in live
  {
  }

  lemma PingKeeps(live: set<Id>, order: Id -> seq<Id>, m: Id, s: State, s': State)
    requires Invariant(live, order, m, s)
    requires (exists from, to :: Ping(live, order, s, from, to, s')) || (exists k, p :: Miss(live, order, s, k, p, s'))
    ensures Invariant(live, order, m, s')
  {
    hide Ping, Miss, Accurate;
    forall n <- live
      ensures s'.nodes.Keys == live && s'.coordinators == s.coordinators && s'.announced == s.announced
      ensures s'.nodes[n].leader == s.nodes[n].leader && Accurate(live, order(n), n, s'.nodes[n])
      ensures (forall k <- s'.elections :: k in live)
    {
      PingNodes(live, order, m, s, s', n);
    }
    assert m in live;
  }

  lemma NextKeeps(live: set<Id>, order: Id -> seq<Id>, m: Id, s: State, s': State)
    requires Stable(live, order) && IsMin(live, m) && Invariant(live, order, m, s) && Next(live, order, s, s')
    ensures Invariant(live, order, m, s')
  {
    hide Elect, Announce, Ping, Miss, Stable, Invariant, IsMin;
    if n :| Elect(live, order, s, n, s') {
      ElectKeeps(live, order, m, s, n, s');
    } else if n: Id, l: Id :| Announce(live, s, n, l, s') {
      AnnounceKeeps(live, order, m, s, n, l, s');
    } else {
      PingKeeps(live, order, m, s, s');
    }
  }

  lemma {:induction false} Reachable(live: set<Id>, order: Id -> seq<Id>, m: Id, run: seq<State>, i: nat)
    requires Stable(live, order) && IsMin(live, m) && IsRun(live, order, run) && i < |run|
    ensures Invariant(live, order, m, run[i])
  {
    if i > 0 {
      Reachable(live, order, m, run, i - 1);
      hide Next, Stable, IsMin, Invariant;
      NextKeeps(live, order, m, run[i - 1], run[i]);
    }
  }

  lemma AnnouncedLeader(live: set<Id>, order: Id -> seq<Id>, m: Id, s: State, k: Id, l: Id, s': State, n: Id)
    requires Invariant(live, order, m, s) && Announce(live, s, k, l, s') && n in live
    ensures n in s'.nodes && n in s.nodes && (s'.nodes[n].leader == s.nodes[n].leader || s'.nodes[n].leader == m)
  {
    hide Accurate;
    assert (k, l) in s.coordinators;
  }

  lemma StepLeader(live: set<Id>, order: Id -> seq<Id>, m: Id, s: State, s': State, n: Id)
    requires Stable(live, order) && IsMin(live, m) && Invariant(live, order, m, s) && Next(live, order, s, s')
             && n in live
    ensures n in s'.nodes && (s'.nodes[n].leader == s.nodes[n].leader || s'.nodes[n].leader == m)
  {
    hide Elect, Announce, Ping, Miss, Stable, IsMin, Told, Invariant;
    NodeAccurate(live, order, m, s, n);
    if k :| Elect(live, order, s, k, s') {
      ElectCases(live, order, m, s, k, s');
    } else if k: Id, l: Id :| Announce(live, s, k, l, s') {
      AnnouncedLeader(live, order, m, s, k, l, s', n);
    } else {
      PingNodes(live, order, m, s, s', n);
    }
  }

  /** Only the lowest live id ever becomes leader, or is believed to have become one. */
  lemma OnlyMinimumLeads(live: set<Id>, order: Id -> seq<Id>, m: Id, run: seq<State>, i: nat, n: Id)
    requires Stable(live, order) && IsMin(live, m) && IsRun(live, order, run) && i < |run| - 1 && n in live
    ensures n in run[i].nodes && n in run[i + 1].nodes
    ensures run[i + 1].nodes[n].leader == run[i].nodes[n].leader || run[i + 1].nodes[n].leader == m
    ensures run[i + 1].nodes[n].isLeader && !run[i].nodes[n].isLeader ==> n == m
  {
    hide Stable, Next, IsMin;
    Reachable(live, order, m, run, i);
    Reachable(live, order, m, run, i + 1);
    StepLeader(live, order, m, run[i], run[i + 1], n);
    assert Accurate(live, order(n), n, run[i].nodes[n]) && Accurate(live, order(n), n, run[i + 1].nodes[n]);
  }

  /** All agree on the minimum, and it alone leads. */
  ghost predicate Agreed(live: set<Id>, m: Id, s: State) {
    s.nodes.Keys == live && forall n <- live :: s.nodes[n].leader == m && s.nodes[n].isLeader == (n == m)
  }

  /** Once the minimum has announced itself and its announcements have arrived, all live nodes agree on it. */
  lemma AnnouncedMeansAgreed(live: set<Id>, order: Id -> seq<Id>, m: Id, run: seq<State>, i: nat)
    requires Stable(live, order) && IsMin(live, m) && IsRun(live, order, run) && i < |run|
    requires run[i].announced && run[i].coordinators == multiset{}
    ensures Agreed(live, m, run[i])
  {
    hide Next, Stable;
    Reachable(live, order, m, run, i);
    forall n <- live ensures run[i].nodes[n].leader == m && run[i].nodes[n].isLeader == (n == m) {
      assert Accurate(live, order(n), n, run[i].nodes[n]);
    }
  }

  /** Among nodes that agree no ping is a conflict, and a missed ping is of a node that was dead before. */
  lemma NoNewElection(live: set<Id>, order: Id -> seq<Id>, m: Id, s: State, s': State)
    requires Invariant(live, order, m, s) && Agreed(live, m, s)
    requires (exists from, to :: Ping(live, order, s, from, to, s')) || (exists k, p :: Miss(live, order, s, k, p, s'))
    ensures s'.elections == s.elections
  {
    if k, p :| Miss(live, order, s, k, p, s') {
      MarkedAccurate(live, order(k), k, s.nodes[k], p);
    }
  }

  lemma StepAgreed(live: set<Id>, order: Id -> seq<Id>, m: Id, s: State, s': State)
    requires Stable(live, order) && IsMin(live, m) && Invariant(live, order, m, s) && Next(live, order, s, s')
    requires Agreed(live, m, s)
    ensures Agreed(live, m, s') && |s'.elections| <= |s.elections|
  {
    hide Elect, Announce, Ping, Miss, Stable, IsMin, Invariant;
    NextKeeps(live, order, m, s, s');
    forall n <- live ensures n in s'.nodes && s'.nodes[n].leader == m && s'.nodes[n].isLeader == (n == m) {
      StepLeader(live, order, m, s, s', n);
      NodeAccurate(live, order, m, s', n);
    }
    SameNodes(live, order, m, s');
    if k :| Elect(live, order, s, k, s') {
      ElectionsDrop(live, order, m, s, k, s');
    } else if k: Id, l: Id :| Announce(live, s, k, l, s') {
      AnnouncedElections(live, s, k, l, s');
    } else {
      NoNewElection(live, order, m, s, s');
    }
  }

  lemma SameNodes(live: set<Id>, order: Id -> seq<Id>, m: Id, s: State)
    requires Invariant(live, order, m, s)
    ensures s.nodes.Keys == live
  {
  }

  lemma ElectionsDrop(live: set<Id>, order: Id -> seq<Id>, m: Id, s: State, n: Id, s': State)
    requires Stable(live, order) && IsMin(live, m) && Invariant(live, order, m, s) && Elect(live, order, s, n, s')
    ensures |s'.elections| <= |s.elections|
  {
    hide Elect, Stable, IsMin, Told, Accurate;
    ElectCases(live, order, m, s, n, s');
    FewerElections(live, s.elections, n);
  }

  lemma AnnouncedElections(live: set<Id>, s: State, n: Id, l: Id, s': State)
    requires Announce(live, s, n, l, s')
    ensures s'.elections == s.elections
  {
  }

  /** Agreement on the minimum is for good: no step breaks it, and no ping starts an election any more. */
  lemma {:induction false} AgreementIsStable(live: set<Id>, order: Id -> seq<Id>, m: Id, run: seq<State>, i: nat,
                                             j: nat)
    requires Stable(live, order) && IsMin(live, m) && IsRun(live, order, run) && i <= j < |run|
             && Agreed(live, m, run[i])
    ensures Agreed(live, m, run[j]) && |run[j].elections| <= |run[i].elections|
  {
    if i < j {
      hide Stable, Next, IsMin, Agreed, Invariant;
      AgreementIsStable(live, order, m, run, i, j - 1);
      Reachable(live, order, m, run, j - 1);
      StepAgreed(live, order, m, run[j - 1], run[j]);
    }
  }
}
