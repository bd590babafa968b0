/** What the learners make of it: everything learned was accepted by a quorum, learners agree, and no
    learner learns a number twice, although late datagrams reopen entries and timeouts split counts. */
module PaxosLearning {
  import opened SetSizes
  import opened Quorums
  import opened PaxosRoles
  import opened PaxosProtocol
  import opened PaxosSafety

  ghost function HeardOf(heard: set<Datagram>, n: nat): set<Datagram>
  {
    set d | d in heard && d.num == n
  }

  /** How often number `n` was learned. */
  ghost function Times(learned: seq<(nat, Request)>, n: nat): nat
  {
    if learned == [] then 0
    else Times(learned[..|learned| - 1], n) + if learned[|learned| - 1].0 == n then 1 else 0
  }

  ghost function Seen(t: PendingTable, n: nat): nat
  {
    if n in t then t[n].seen else 0
  }

  ghost predicate WasAccepted(net: set<Message>, a: nat, n: nat, x: Request)
  {
    exists r :: Accepted(r, a, n, x) in net
  }

  ghost predicate HeardRequest(heard: set<Datagram>, n: nat, x: Request)
  {
    exists d :: d in heard && d.num == n && d.req == x
  }

  /** Counting never runs ahead of the datagrams heard, even across flushed and learned entries. */
  ghost predicate CountsBounded(c: Config, ls: LearnerState)
  {
    forall n: nat :: Seen(ls.pending, n) + c.Majority() * Times(ls.learned, n) <= |HeardOf(ls.heard, n)|
  }

  ghost predicate EntriesOk(c: Config, ls: LearnerState)
  {
    && (forall n | n in ls.pending ::
          ls.pending[n].crc == 0 && ls.pending[n].needed == c.Majority()
              && HeardRequest(ls.heard, n, ls.pending[n].req))
    && (forall n, x | (n, x) in ls.learned :: HeardRequest(ls.heard, n, x))
  }

  /** Datagrams come from acceptances, and each is counted at most once. */
  ghost predicate DatagramsOk(s: State)
  {
    && (forall d | d in s.datagrams :: WasAccepted(s.net, d.from, d.num, d.req))
    && (forall l, d | l in s.learners && d in s.learners[l].heard ::
          d.to == l && d !in s.datagrams && WasAccepted(s.net, d.from, d.num, d.req))
  }

  ghost predicate LearnInv(c: Config, s: State)
  {
    DatagramsOk(s) && forall l | l in s.learners :: CountsBounded(c, s.learners[l]) && EntriesOk(c, s.learners[l])
  }

  lemma InitLearn(c: Config, s: State)
    requires Init(c, s)
    ensures LearnInv(c, s)
  {
  }

  lemma HeardMore(heard: set<Datagram>, d: Datagram, n: nat)
    requires d !in heard
    ensures |HeardOf(heard + {d}, n)| == |HeardOf(heard, n)| + if d.num == n then 1 else 0
  {
    if d.num == n {
      assert HeardOf(heard + {d}, n) == HeardOf(heard, n) + {d};
    } else {
      assert HeardOf(heard + {d}, n) == HeardOf(heard, n);
    }
  }

  lemma CountDatagram(c: Config, ls: LearnerState, d: Datagram, now: int, ls': LearnerState)
    requires CountsBounded(c, ls) && EntriesOk(c, ls) && d !in ls.heard
    requires var t := Counted(ls.pending, LearnRequest(d.num, d.req, 0), c.Majority(), now);
             ls' == LearnerState(t, ls.heard + {d}, ls.learned)
    ensures CountsBounded(c, ls') && EntriesOk(c, ls')
  {
    forall n: nat ensures Seen(ls'.pending, n) + c.Majority() * Times(ls'.learned, n) <= |HeardOf(ls'.heard, n)| {
      HeardMore(ls.heard, d, n);
      assert Seen(ls.pending, n) + c.Majority() * Times(ls.learned, n) <= |HeardOf(ls.heard, n)|;
    }
    HeardKept(ls.heard, ls'.heard);
    assert d in ls'.heard;
  }

  lemma HeardKept(heard: set<Datagram>, heard': set<Datagram>)
    requires heard <= heard'
    ensures forall n, x | HeardRequest(heard, n, x) :: HeardRequest(heard', n, x)
  {
    forall n, x | HeardRequest(heard, n, x) ensures HeardRequest(heard', n, x) {
      var d :| d in heard && d.num == n && d.req == x;
      assert d in heard';
    }
  }

  lemma LearnEntry(c: Config, ls: LearnerState, n: nat, ls': LearnerState)
    requires CountsBounded(c, ls) && EntriesOk(c, ls)
    requires n in ls.pending && ls.pending[n].Complete()
    requires ls' == LearnerState(ls.pending - {n}, ls.heard, ls.learned + [(n, ls.pending[n].req)])
    ensures CountsBounded(c, ls') && EntriesOk(c, ls')
  {
    assert ls'.learned[..|ls'.learned| - 1] == ls.learned;
    forall k: nat ensures Seen(ls'.pending, k) + c.Majority() * Times(ls'.learned, k) <= |HeardOf(ls'.heard, k)| {
      assert Seen(ls.pending, k) + c.Majority() * Times(ls.learned, k) <= |HeardOf(ls.heard, k)|;
      if k == n {
        assert Times(ls'.learned, k) == Times(ls.learned, k) + 1;
        assert c.Majority() * Times(ls'.learned, k) == c.Majority() * Times(ls.learned, k) + c.Majority();
      }
    }
  }

  lemma FlushEntries(c: Config, ls: LearnerState, dead: set<nat>, ls': LearnerState)
    requires CountsBounded(c, ls) && EntriesOk(c, ls) && ls' == ls.(pending := ls.pending - dead)
    ensures CountsBounded(c, ls') && EntriesOk(c, ls')
  {
    forall k: nat ensures Seen(ls'.pending, k) + c.Majority() * Times(ls'.learned, k) <= |HeardOf(ls'.heard, k)| {
      assert Seen(ls.pending, k) + c.Majority() * Times(ls.learned, k) <= |HeardOf(ls.heard, k)|;
    }
  }

  lemma AcceptedKept(net: set<Message>, net': set<Message>)
    requires net <= net'
    ensures forall a, n, x | WasAccepted(net, a, n, x) :: WasAccepted(net', a, n, x)
  {
    forall a, n, x | WasAccepted(net, a, n, x) ensures WasAccepted(net', a, n, x) {
      var r :| Accepted(r, a, n, x) in net;
      assert Accepted(r, a, n, x) in net';
    }
  }

  /** An acceptance sends datagrams nobody has heard: the accepter never accepted that number before. */
  lemma DeliverProposeLearn(c: Config, s: State, s': State, a: nat, m: Message)
    requires Inv(c, s) && LearnInv(c, s) && DeliverProposeStep(s, s', a, m)
    ensures LearnInv(c, s')
  {
    AcceptedKept(s.net, s'.net);
    var ack := HandlePropose(s.accepters[a], a, m).1;
    if ack.Accepted? {
      assert Accepted(m.round, a, m.num, m.req) in s'.net;
      assert WasAccepted(s'.net, a, m.num, m.req);
      forall l, d | l in s.learners && d in s.learners[l].heard ensures d !in s'.datagrams {
        var r :| Accepted(r, d.from, d.num, d.req) in s.net;
        assert d !in Broadcast(s, a, m);
      }
    }
  }

  lemma DeliverLearnLearn(c: Config, s: State, s': State, l: nat, d: Datagram, now: int)
    requires LearnInv(c, s) && DeliverLearnStep(c, s, s', l, d, now)
    ensures LearnInv(c, s')
  {
    CountDatagram(c, s.learners[l], d, now, s'.learners[l]);
  }

  lemma OtherStepsLearn(c: Config, s: State, s': State, step: Step)
    requires Next(c, s, s', step)
    requires !step.DeliverPropose? && !step.DeliverLearn? && !step.Flush? && !step.LearnLowest?
    ensures s'.learners == s.learners && s'.datagrams == s.datagrams && s.net <= s'.net
  {
  }

  /** One learner's entries change, within what it has heard. */
  lemma OneLearner(c: Config, s: State, s': State, l: nat, ls': LearnerState)
    requires LearnInv(c, s) && l in s.learners && s' == s.(learners := s.learners[l := ls'])
    requires ls'.heard == s.learners[l].heard && CountsBounded(c, ls') && EntriesOk(c, ls')
    ensures LearnInv(c, s')
  {
  }

  lemma FlushLearn(c: Config, s: State, s': State, l: nat, dead: set<nat>)
    requires LearnInv(c, s) && FlushStep(s, s', l, dead)
    ensures LearnInv(c, s')
  {
    FlushEntries(c, s.learners[l], dead, s'.learners[l]);
    OneLearner(c, s, s', l, s'.learners[l]);
  }

  lemma LowestLearn(c: Config, s: State, s': State, l: nat, n: nat)
    requires LearnInv(c, s) && LearnLowestStep(s, s', l, n)
    ensures LearnInv(c, s')
  {
    LearnEntry(c, s.learners[l], n, s'.learners[l]);
    OneLearner(c, s, s', l, s'.learners[l]);
  }

  lemma SameLearners(c: Config, s: State, s': State)
    requires LearnInv(c, s) && s'.learners == s.learners && s'.datagrams == s.datagrams && s.net <= s'.net
    ensures LearnInv(c, s')
  {
    AcceptedKept(s.net, s'.net);
  }

  lemma NextLearn(c: Config, s: State, s': State, step: Step)
    requires Inv(c, s) && LearnInv(c, s) && Next(c, s, s', step)
    ensures LearnInv(c, s')
  {
    if step.DeliverPropose? {
      DeliverProposeLearn(c, s, s', step.a, step.m);
    } else if step.DeliverLearn? {
      DeliverLearnLearn(c, s, s', step.l, step.d, step.now);
    } else if step.Flush? {
      FlushLearn(c, s, s', step.l, step.dead);
    } else if step.LearnLowest? {
      LowestLearn(c, s, s', step.l, step.n);
    } else {
      OtherStepsLearn(c, s, s', step);
      SameLearners(c, s, s');
    }
  }

  lemma {:induction false} RunLearn(c: Config, states: seq<State>, steps: seq<Step>)
    requires IsRun(c, states, steps)
    ensures Inv(c, states[|steps|]) && LearnInv(c, states[|steps|])
    decreases |steps|
  {
    if steps == [] {
      InitLearn(c, states[0]);
      InitInv(c, states[0]);
    } else {
      RunPrefix(c, states, steps);
      RunLearn(c, states[..|steps|], steps[..|steps| - 1]);
      NextLearn(c, states[|steps| - 1], states[|steps|], steps[|steps| - 1]);
      NextInv(c, states[|steps| - 1], states[|steps|], steps[|steps| - 1]);
    }
  }

  // ----- the theorems -----

  /** One accepter's datagrams about one number to one learner are a single datagram. */
  lemma HeardFromDistinct(c: Config, s: State, l: nat, n: nat, senders: set<nat>)
    requires Inv(c, s) && LearnInv(c, s) && l in s.learners
    requires forall d | d in HeardOf(s.learners[l].heard, n) :: d.from in senders
    ensures |HeardOf(s.learners[l].heard, n)| <= |senders|
  {
    var heard := HeardOf(s.learners[l].heard, n);
    forall d, e | d in heard && e in heard && d.from == e.from ensures d == e {
      var r :| Accepted(r, d.from, n, d.req) in s.net;
      var r' :| Accepted(r', e.from, n, e.req) in s.net;
    }
    InjectionSize(heard, senders, (d: Datagram) => d.from);
  }

  /** `n < 2q` leaves no room for a second quorum of datagrams: in every run, fall-through or not, a
      learner executes a number at most once. */
  lemma {:induction false} LearnedAtMostOnce(c: Config, states: seq<State>, steps: seq<Step>, l: nat, n: nat)
    requires c.Valid() && IsRun(c, states, steps) && l in c.learners
    ensures l in states[|steps|].learners && Times(states[|steps|].learners[l].learned, n) <= 1
  {
    RunLearn(c, states, steps);
    var s := states[|steps|];
    var ls := s.learners[l];
    forall d | d in HeardOf(ls.heard, n) ensures d.from in c.accepters {
      var r :| Accepted(r, d.from, n, d.req) in s.net;
    }
    HeardFromDistinct(c, s, l, n, c.accepters);
    assert CountsBounded(c, ls);
    assert Seen(ls.pending, n) + c.Majority() * Times(ls.learned, n) <= |HeardOf(ls.heard, n)|;
    TwoQuorumsTooMany(|c.accepters|, Times(ls.learned, n));
  }

  lemma TwoQuorumsTooMany(n: nat, times: nat)
    requires n > 0 && Quorum(n) * times <= n
    ensures times <= 1
  {
    assert times >= 2 ==> Quorum(n) * times >= Quorum(n) * 2;
  }

  lemma TimesPositive(learned: seq<(nat, Request)>, n: nat, x: Request)
    requires (n, x) in learned
    ensures Times(learned, n) >= 1
  {
    if learned[|learned| - 1] != (n, x) {
      TimesPositive(learned[..|learned| - 1], n, x);
    }
  }

  /** With one request per number, whatever a learner executes was accepted by a quorum. */
  lemma {:induction false} LearnedIsChosen(c: Config, states: seq<State>, steps: seq<Step>, l: nat, n: nat, x: Request)
    requires c.Valid() && IsRun(c, states, steps) && OneRequestPerNumber(states[|steps|].net)
    requires l in states[|steps|].learners && (n, x) in states[|steps|].learners[l].learned
    ensures Chosen(c, states[|steps|].net, n, x)
  {
    RunLearn(c, states, steps);
    var s := states[|steps|];
    HeardAreAccepters(c, s, l, n, x);
    QuorumHeard(c, s.learners[l], n, x);
  }

  /** A number that was learned was heard of from a quorum of datagrams. */
  lemma QuorumHeard(c: Config, ls: LearnerState, n: nat, x: Request)
    requires CountsBounded(c, ls) && (n, x) in ls.learned
    ensures |HeardOf(ls.heard, n)| >= c.Majority()
  {
    TimesPositive(ls.learned, n, x);
    assert Seen(ls.pending, n) + c.Majority() * Times(ls.learned, n) <= |HeardOf(ls.heard, n)|;
    assert c.Majority() * Times(ls.learned, n) >= c.Majority() * 1;
  }

  lemma HeardAreAccepters(c: Config, s: State, l: nat, n: nat, x: Request)
    requires Inv(c, s) && LearnInv(c, s) && OneRequestPerNumber(s.net)
    requires l in s.learners && (n, x) in s.learners[l].learned
    ensures |HeardOf(s.learners[l].heard, n)| <= |AcceptersOf(c, s.net, n, x)|
  {
    var ls := s.learners[l];
    assert EntriesOk(c, ls);
    var d0 :| d0 in ls.heard && d0.num == n && d0.req == x;
    forall d | d in HeardOf(ls.heard, n) ensures d.from in AcceptersOf(c, s.net, n, x) {
      SameRequest(c, s, d0, d);
      var r :| Accepted(r, d.from, n, d.req) in s.net;
    }
    HeardFromDistinct(c, s, l, n, AcceptersOf(c, s.net, n, x));
  }

  lemma SameRequest(c: Config, s: State, d: Datagram, e: Datagram)
    requires Inv(c, s) && OneRequestPerNumber(s.net) && d.num == e.num
    requires WasAccepted(s.net, d.from, d.num, d.req) && WasAccepted(s.net, e.from, e.num, e.req)
    ensures d.req == e.req
  {
    var r :| Accepted(r, d.from, d.num, d.req) in s.net;
    var r' :| Accepted(r', e.from, e.num, e.req) in s.net;
    assert ProposeSent(s.net, r, d.num, d.req) && ProposeSent(s.net, r', e.num, e.req);
    var k :| Propose(r, d.num, d.req, k) in s.net;
    var k' :| Propose(r', e.num, e.req, k') in s.net;
  }

  /** With one request per number, any two learners execute the same request under a number. */
  lemma {:induction false} LearnersAgree(
    c: Config, states: seq<State>, steps: seq<Step>, l: nat, l': nat, n: nat, x: Request, y: Request)
    requires c.Valid() && IsRun(c, states, steps) && OneRequestPerNumber(states[|steps|].net)
    requires l in states[|steps|].learners && (n, x) in states[|steps|].learners[l].learned
    requires l' in states[|steps|].learners && (n, y) in states[|steps|].learners[l'].learned
    ensures x == y
  {
    LearnedIsChosen(c, states, steps, l, n, x);
    LearnedIsChosen(c, states, steps, l', n, y);
    ChosenIsUnique(c, states, steps, n, x, y);
  }

  /** The two halves together: without fall-through, learners agree and learn only what was chosen. */
  lemma {:induction false} CleanRunsAgree(
    c: Config, states: seq<State>, steps: seq<Step>, l: nat, l': nat, n: nat, x: Request, y: Request)
    requires c.Valid() && IsRun(c, states, steps) && NoFallThrough(steps)
    requires l in states[|steps|].learners && (n, x) in states[|steps|].learners[l].learned
    requires l' in states[|steps|].learners && (n, y) in states[|steps|].learners[l'].learned
    ensures x == y && Chosen(c, states[|steps|].net, n, x)
  {
    OneProposePerNumber(c, states, steps);
    LearnersAgree(c, states, steps, l, l', n, x, y);
    LearnedIsChosen(c, states, steps, l, n, x);
  }
}
