/** The retry loop's fall-through costs the learners their agreement: with two proposers, two accepters
    and two learners there are runs in which two requests are proposed under one number and two learners
    execute different ones. */
module PaxosDisagreement {
  import opened PaxosRoles
  import opened PaxosProtocol
  import opened PaxosRuns

  /** No call of a proposer or answer of an accepter touches a learner. */
  ghost predicate LearnersFresh(s: State)
  {
    forall l | l in s.learners :: s.learners[l].pending == map[] && s.learners[l].learned == []
  }

  /** A request whose rounds are all lost, up to the last: its PREPARE for 41 is out. */
  lemma Exhaust(c: Config, s: State, p: nat, x: Request) returns (s': State, m: Message)
    requires c.Valid() && Reachable(c, s, false) && p in s.proposers && s.proposers[p] == ProposerState(0, Idle)
    ensures Reachable(c, s', false) && OnlyMoved(s, s', p) && m in s'.net && m.Prepare? && m.num == BOW_OUT - 1
    ensures Number(s', p) == BOW_OUT - 1 && PhaseOf(s', p).Preparing?
    ensures PhaseOf(s', p).req == x && PhaseOf(s', p).bowOut == BOW_OUT
  {
    var s1 := DoBegin(c, s, p, x, false);
    s', m := LoseAndPrepare(c, s1, p);
    MovedTwice(s, s1, s', p);
  }

  lemma LoseAndPrepare(c: Config, s: State, p: nat) returns (s': State, m: Message)
    requires c.Valid() && Reachable(c, s, false) && p in s.proposers
    requires Number(s, p) == 0 && PhaseOf(s, p).ReadyToPrepare? && PhaseOf(s, p).bowOut == 1
    ensures Reachable(c, s', false) && OnlyMoved(s, s', p) && m in s'.net && m.Prepare? && m.num == BOW_OUT - 1
    ensures Number(s', p) == BOW_OUT - 1 && PhaseOf(s', p).Preparing?
    ensures PhaseOf(s', p).req == PhaseOf(s, p).req && PhaseOf(s', p).bowOut == BOW_OUT
  {
    var s1 := LoseRounds(c, s, p, BOW_OUT - 1, false);
    s' := DoSendPrepare(c, s1, p, false);
    m := Prepare(s1.nextRound, BOW_OUT - 1, PhaseOf(s, p).req);
    MovedTwice(s, s1, s', p);
  }

  /** After the last lost round, an unprepared PROPOSE of 42. */
  lemma ProposeUnprepared(c: Config, s: State, p: nat) returns (s': State, m: Message)
    requires c.Valid() && Reachable(c, s, false) && p in s.proposers
    requires Number(s, p) == BOW_OUT - 1 && PhaseOf(s, p).Preparing? && PhaseOf(s, p).bowOut == BOW_OUT
    ensures Reachable(c, s', false) && OnlyMoved(s, s', p)
    ensures m in s'.net && m.Propose? && m.num == BOW_OUT && m.req == PhaseOf(s, p).req
  {
    NothingRead(c, s, p);
    var s1 := DoFallThrough(c, s, p, map[], BOW_OUT - 1);
    s', m := DoSendPropose(c, s1, p, false);
    MovedTwice(s, s1, s', p);
  }

  /** The first proposer uses up its retries; the last of its PREPAREs reaches accepter `a`. */
  lemma FirstProposes(c: Config, s: State, p: nat, a: nat, x: Request) returns (s': State, mx: Message)
    requires c.Valid() && Reachable(c, s, false) && p in s.proposers && s.proposers[p] == ProposerState(0, Idle)
    requires a in s.accepters && s.accepters[a] == AccepterState(0, 0)
    ensures Reachable(c, s', false) && s'.accepters == s.accepters[a := AccepterState(BOW_OUT - 1, 0)]
    ensures s'.learners == s.learners && s'.proposers.Keys == s.proposers.Keys
    ensures forall q | q in s.proposers && q != p :: s'.proposers[q] == s.proposers[q]
    ensures mx in s'.net && mx.Propose? && mx.num == BOW_OUT && mx.req == x
  {
    var s1, m := Exhaust(c, s, p, x);
    var s2 := DoDeliverPrepare(c, s1, a, m, false);
    s', mx := ProposeUnprepared(c, s2, p);
    OneReached(s, s1, s2, s', p, a, m);
  }

  /** What a request leaves behind whose PREPARE `m` reached accepter `a` only. */
  lemma OneReached(s: State, s1: State, s2: State, s': State, p: nat, a: nat, m: Message)
    requires OnlyMoved(s, s1, p) && OnlyAnswered(s1, s2) && OnlyMoved(s2, s', p) && m.Prepare? && m.num > 0
    requires p in s.proposers && a in s.accepters && s.accepters[a] == AccepterState(0, 0)
    requires s2.accepters == s1.accepters[a := HandlePrepare(s1.accepters[a], a, m).0]
    ensures s'.accepters == s.accepters[a := AccepterState(m.num, 0)]
    ensures s'.learners == s.learners && s'.proposers.Keys == s.proposers.Keys
    ensures forall q | q in s.proposers && q != p :: s'.proposers[q] == s.proposers[q]
  {
  }

  /** A NACK for 41 lifts the second proposer straight to number 42. */
  lemma LiftedByNack(c: Config, s: State, q: nat, a: nat, y: Request) returns (s': State)
    requires c.Valid() && Reachable(c, s, false) && q in s.proposers && s.proposers[q] == ProposerState(0, Idle)
    requires a in c.accepters && a in s.accepters && s.accepters[a] == AccepterState(BOW_OUT - 1, 0)
    ensures Reachable(c, s', false) && s'.accepters == s.accepters && s'.learners == s.learners
    ensures s.net <= s'.net && q in s'.proposers
    ensures Number(s', q) == BOW_OUT && PhaseOf(s', q).ReadyToPrepare? && PhaseOf(s', q).req == y
  {
    var s1, m := PrepareZero(c, s, q, y);
    var nack := Nack(m.round, a, BOW_OUT - 1);
    var s2 := DoDeliverPrepare(c, s1, a, m, false);
    assert s2.accepters == s1.accepters && nack in s2.net;
    s' := RetryOnNack(c, s2, q, a, nack);
  }

  lemma PrepareZero(c: Config, s: State, q: nat, y: Request) returns (s': State, m: Message)
    requires c.Valid() && Reachable(c, s, false) && q in s.proposers && s.proposers[q] == ProposerState(0, Idle)
    ensures Reachable(c, s', false) && OnlyMoved(s, s', q) && m in s'.net && m.Prepare? && m.num == 0
    ensures s'.proposers[q] == ProposerState(0, Preparing(m.round, y, 1))
  {
    var s1 := DoBegin(c, s, q, y, false);
    s' := DoSendPrepare(c, s1, q, false);
    m := Prepare(s1.nextRound, 0, y);
    MovedTwice(s, s1, s', q);
  }

  lemma RetryOnNack(c: Config, s: State, q: nat, a: nat, nack: Message) returns (s': State)
    requires c.Valid() && Reachable(c, s, false) && q in s.proposers && a in c.accepters && nack in s.net
    requires PhaseOf(s, q).Preparing? && PhaseOf(s, q).bowOut == 1
    requires nack.Nack? && nack.round == PhaseOf(s, q).round && nack.from == a && nack.num >= Number(s, q)
    ensures Reachable(c, s', false) && OnlyMoved(s, s', q)
    ensures Number(s', q) == nack.num + 1 && PhaseOf(s', q).ReadyToPrepare? && PhaseOf(s', q).req == PhaseOf(s, q).req
  {
    ReadNack(c, s, q, a, nack);
    s' := DoRetry(c, s, q, map[a := nack], nack.num, false);
  }

  lemma ReadNack(c: Config, s: State, q: nat, a: nat, nack: Message)
    requires c.Valid() && q in s.proposers && PhaseOf(s, q).Preparing? && a in c.accepters && nack in s.net
    requires nack.Nack? && nack.round == PhaseOf(s, q).round && nack.from == a && nack.num >= Number(s, q)
    ensures PrepareFails(c, s, q, map[a := nack], nack.num)
  {
    var replies := map[a := nack];
    assert Promisers(replies) == {};
    assert a in replies && replies[a].Nack? && replies[a].num == nack.num;
  }

  /** All accepters promise 42 to the second proposer, which then proposes it too. */
  lemma SecondProposes(c: Config, s: State, q: nat) returns (s': State, my: Message)
    requires c.Valid() && Reachable(c, s, false) && q in s.proposers && s.accepters.Keys == c.accepters
    requires Number(s, q) == BOW_OUT && PhaseOf(s, q).ReadyToPrepare?
    requires forall b | b in s.accepters :: s.accepters[b].promised < BOW_OUT && s.accepters[b].accepted == 0
    ensures Reachable(c, s', false) && s.net <= s'.net && s'.learners == s.learners && s'.accepters.Keys == c.accepters
    ensures forall b | b in s'.accepters :: s'.accepters[b] == AccepterState(BOW_OUT, 0)
    ensures my in s'.net && my.Propose? && my.num == BOW_OUT && my.req == PhaseOf(s, q).req
  {
    var s1 := DoSendPrepare(c, s, q, false);
    var s2 := AllPromise(c, s1, Prepare(s.nextRound, BOW_OUT, PhaseOf(s, q).req), c.accepters, false);
    s', my := ReadPromises(c, s2, q, false);
  }

  /** PROPOSEs of `x` and `y` are out under 42, and every accepter has promised 42. */
  ghost predicate BothOut(c: Config, s: State, mx: Message, my: Message, x: Request, y: Request)
  {
    && LearnersFresh(s) && s.learners.Keys == c.learners && s.accepters.Keys == c.accepters
    && (forall b | b in s.accepters :: s.accepters[b] == AccepterState(BOW_OUT, 0))
    && mx in s.net && mx.Propose? && mx.num == BOW_OUT && mx.req == x
    && my in s.net && my.Propose? && my.num == BOW_OUT && my.req == y
  }

  lemma TwoProposals(c: Config, p: nat, q: nat, a: nat, x: Request, y: Request)
    returns (s: State, mx: Message, my: Message)
    requires c.Valid() && p in c.proposers && q in c.proposers && p != q && a in c.accepters
    ensures Reachable(c, s, false) && BothOut(c, s, mx, my, x, y)
  {
    var s0 := Start(c, false);
    var s1, m1 := FirstProposes(c, s0, p, a, x);
    assert LearnersFresh(s1) && s1.accepters.Keys == c.accepters && s1.proposers[q] == ProposerState(0, Idle);
    s, my := PreparedProposal(c, s1, q, a, y);
    mx := m1;
  }

  lemma PreparedProposal(c: Config, s: State, q: nat, a: nat, y: Request) returns (s': State, my: Message)
    requires c.Valid() && Reachable(c, s, false) && q in s.proposers && s.proposers[q] == ProposerState(0, Idle)
    requires s.accepters.Keys == c.accepters && a in c.accepters && s.accepters[a] == AccepterState(BOW_OUT - 1, 0)
    requires forall b | b in s.accepters && b != a :: s.accepters[b] == AccepterState(0, 0)
    ensures Reachable(c, s', false) && s.net <= s'.net && s'.learners == s.learners && s'.accepters.Keys == c.accepters
    ensures forall b | b in s'.accepters :: s'.accepters[b] == AccepterState(BOW_OUT, 0)
    ensures my in s'.net && my.Propose? && my.num == BOW_OUT && my.req == y
  {
    var s1 := LiftedByNack(c, s, q, a, y);
    s', my := SecondProposes(c, s1, q);
  }

  /** Accepter `a` accepts `x`, all others accept `y`. */
  lemma SplitVote(c: Config, s: State, a: nat, mx: Message, my: Message, x: Request, y: Request) returns (s': State)
    requires Reachable(c, s, false) && BothOut(c, s, mx, my, x, y) && a in c.accepters
    ensures Reachable(c, s', false) && s'.learners == s.learners
    ensures forall b, l | b in c.accepters && l in s.learners ::
        Datagram(b, l, BOW_OUT, if b == a then x else y) in s'.datagrams
  {
    var s1 := DoAccept(c, s, a, mx, false);
    s' := AllAccept(c, s1, my, c.accepters - {a}, false);
  }

  /** Learner agreement is false of runs with the fall-through, whenever there are two of each role: one
      learner executes one request and another learner a different one under the same number. */
  lemma LearnersCanDisagree(
    c: Config, p: nat, q: nat, a: nat, b: nat, l: nat, k: nat, x: Request, y: Request) returns (s: State)
    requires p in c.proposers && q in c.proposers && p != q && a in c.accepters && b in c.accepters && a != b
    requires l in c.learners && k in c.learners && l != k
    ensures Reachable(c, s, false) && l in s.learners && k in s.learners
    ensures s.learners[l].learned == [(BOW_OUT, x)] && s.learners[k].learned == [(BOW_OUT, y)]
  {
    var s1, mx, my := TwoProposals(c, p, q, a, x, y);
    var s2 := SplitVote(c, s1, a, mx, my, x, y);
    s := LearnBoth(c, s2, a, b, l, k, d => if d == a then x else y);
  }

  /** Each learner learns what it hears first. */
  lemma LearnBoth(c: Config, s: State, a: nat, b: nat, l: nat, k: nat, says: nat -> Request) returns (s': State)
    requires c.Valid() && Reachable(c, s, false) && LearnersFresh(s) && a in c.accepters && b in c.accepters
    requires l in s.learners && k in s.learners && l != k
    requires forall d | d in c.accepters :: Datagram(d, l, BOW_OUT, says(d)) in s.datagrams
    requires forall d | d in c.accepters :: Datagram(d, k, BOW_OUT, says(d)) in s.datagrams
    ensures Reachable(c, s', false) && l in s'.learners && k in s'.learners
    ensures s'.learners[l].learned == [(BOW_OUT, says(a))] && s'.learners[k].learned == [(BOW_OUT, says(b))]
  {
    var s1 := HearAll(c, s, l, BOW_OUT, a, says, false);
    s' := HearAll(c, s1, k, BOW_OUT, b, says, false);
  }
}
