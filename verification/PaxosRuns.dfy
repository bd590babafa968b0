/** Building runs: each lemma extends a reachable state by one step or by a stretch of steps. */
module PaxosRuns {
  import opened Basics
  import opened PaxosRoles
  import opened PaxosProtocol

  /** Some run ends in `s`; a clean one never falls through. */
  ghost predicate Reachable(c: Config, s: State, clean: bool)
  {
    exists states, steps :: IsRun(c, states, steps) && states[|steps|] == s && (clean ==> NoFallThrough(steps))
  }

  /** The steps lead from one state to the other. */
  ghost predicate Leads(c: Config, s: State, s': State, steps: seq<Step>)
  {
    exists states :: IsStretch(c, states, steps) && states[0] == s && states[|steps|] == s'
  }

  lemma Join(c: Config, states: seq<State>, steps: seq<Step>, states': seq<State>, steps': seq<Step>)
    requires IsStretch(c, states, steps) && IsStretch(c, states', steps') && states[|steps|] == states'[0]
    ensures IsStretch(c, states + states'[1..], steps + steps')
  {
    var longer, done := states + states'[1..], steps + steps';
    forall i: nat | i < |done| ensures StepAt(c, longer, done, i) {
      if i < |steps| {
        assert StepAt(c, states, steps, i);
      } else {
        assert StepAt(c, states', steps', i - |steps|);
      }
    }
  }

  lemma LeadsOn(c: Config, s: State, s': State, s'': State, steps: seq<Step>, steps': seq<Step>)
    requires Leads(c, s, s', steps) && Leads(c, s', s'', steps')
    ensures Leads(c, s, s'', steps + steps')
  {
    var states :| IsStretch(c, states, steps) && states[0] == s && states[|steps|] == s';
    var states' :| IsStretch(c, states', steps') && states'[0] == s' && states'[|steps'|] == s'';
    Join(c, states, steps, states', steps');
    assert (states + states'[1..])[|steps + steps'|] == s'';
  }

  lemma LeadsNowhere(c: Config, s: State)
    ensures Leads(c, s, s, [])
  {
    var nothing: seq<Step> := [];
    assert IsStretch(c, [s], nothing) && [s][|nothing|] == s;
  }

  lemma Extend(c: Config, s: State, s': State, step: Step, clean: bool)
    requires Reachable(c, s, clean) && Next(c, s, s', step) && (clean ==> !step.FallThrough?)
    ensures Reachable(c, s', clean) && Leads(c, s, s', [step])
  {
    var states, steps :| IsRun(c, states, steps) && states[|steps|] == s && (clean ==> NoFallThrough(steps));
    assert StepAt(c, [s, s'], [step], 0);
    assert IsStretch(c, [s, s'], [step]) && [s, s'][|[step]|] == s';
    Join(c, states, steps, [s, s'], [step]);
    assert IsRun(c, states + [s, s'][1..], steps + [step]);
    assert (states + [s, s'][1..])[|steps + [step]|] == s';
  }

  ghost function Everywhere<T>(keys: set<nat>, value: T): (m: map<nat, T>)
    ensures m.Keys == keys && forall k | k in keys :: m[k] == value
  {
    map k | k in keys :: value
  }

  /** The initial state, before any step. */
  lemma Start(c: Config, clean: bool) returns (s: State)
    ensures Reachable(c, s, clean) && Init(c, s)
  {
    s := State(0, Everywhere(c.proposers, ProposerState(0, Idle)), Everywhere(c.accepters, AccepterState(0, 0)),
               Everywhere(c.learners, LearnerState(map[], {}, [])), {}, {});
    var nothing: seq<Step> := [];
    assert IsRun(c, [s], nothing) && [s][|nothing|] == s;
  }

  // ----- proposer steps -----

  /** Only proposer `p` moved, and nothing was taken out of the network. */
  ghost predicate OnlyMoved(s: State, s': State, p: nat)
  {
    && s'.accepters == s.accepters && s'.learners == s.learners && s'.datagrams == s.datagrams
    && s.net <= s'.net && p in s'.proposers && s'.proposers == s.proposers[p := s'.proposers[p]]
  }

  lemma MovedTwice(s: State, s': State, s'': State, p: nat)
    requires OnlyMoved(s, s', p) && OnlyMoved(s', s'', p)
    ensures OnlyMoved(s, s'', p)
  {
  }

  lemma DoBegin(c: Config, s: State, p: nat, req: Request, clean: bool) returns (s': State)
    requires Reachable(c, s, clean) && p in s.proposers && PhaseOf(s, p).Idle?
    ensures Reachable(c, s', clean) && OnlyMoved(s, s', p)
    ensures s'.proposers[p] == ProposerState(Number(s, p), ReadyToPrepare(req, 1))
    ensures Next(c, s, s', Begin(p, req)) && Leads(c, s, s', [Begin(p, req)])
  {
    s' := s.(proposers := Move(s, p, Number(s, p), ReadyToPrepare(req, 1)));
    Extend(c, s, s', Begin(p, req), clean);
  }

  lemma DoSendPrepare(c: Config, s: State, p: nat, clean: bool) returns (s': State)
    requires Reachable(c, s, clean) && p in s.proposers && PhaseOf(s, p).ReadyToPrepare?
    ensures Reachable(c, s', clean) && OnlyMoved(s, s', p)
    ensures s'.proposers[p]
         == ProposerState(Number(s, p), Preparing(s.nextRound, PhaseOf(s, p).req, PhaseOf(s, p).bowOut))
    ensures Prepare(s.nextRound, Number(s, p), PhaseOf(s, p).req) in s'.net
    ensures Leads(c, s, s', [SendPrepare(p)])
  {
    var phase := Preparing(s.nextRound, PhaseOf(s, p).req, PhaseOf(s, p).bowOut);
    s' := s.(proposers := Move(s, p, Number(s, p), phase), nextRound := s.nextRound + 1,
             net := s.net + {Prepare(s.nextRound, Number(s, p), PhaseOf(s, p).req)});
    Extend(c, s, s', SendPrepare(p), clean);
  }

  /** A failed `prepare` with retries left. */
  lemma DoRetry(c: Config, s: State, p: nat, replies: map<nat, Message>, highest: nat, clean: bool)
    returns (s': State)
    requires Reachable(c, s, clean) && PrepareFails(c, s, p, replies, highest) && PhaseOf(s, p).bowOut < BOW_OUT
    ensures Reachable(c, s', clean) && OnlyMoved(s, s', p)
    ensures s'.proposers[p]
         == ProposerState(highest + 1, ReadyToPrepare(PhaseOf(s, p).req, PhaseOf(s, p).bowOut + 1))
    ensures Leads(c, s, s', [PrepareRetry(p, replies, highest)])
  {
    s' := s.(proposers := Move(s, p, highest + 1, ReadyToPrepare(PhaseOf(s, p).req, PhaseOf(s, p).bowOut + 1)));
    Extend(c, s, s', PrepareRetry(p, replies, highest), clean);
  }

  lemma DoPrepareOk(c: Config, s: State, p: nat, replies: map<nat, Message>, clean: bool) returns (s': State)
    requires Reachable(c, s, clean) && p in s.proposers && PhaseOf(s, p).Preparing?
    requires Replies(c, s, PhaseOf(s, p).round, replies) && |Promisers(replies)| >= c.Majority()
    ensures Reachable(c, s', clean) && OnlyMoved(s, s', p)
    ensures PhaseOf(s', p).ReadyToPropose? && PhaseOf(s', p).req == PhaseOf(s, p).req && Number(s', p) == Number(s, p)
    ensures PhaseOf(s', p).bowOut == PhaseOf(s, p).bowOut
    ensures Leads(c, s, s', [PrepareOk(p, replies)])
  {
    var phase := ReadyToPropose(PhaseOf(s, p).req, PhaseOf(s, p).bowOut, Some(PhaseOf(s, p).round));
    s' := s.(proposers := Move(s, p, Number(s, p), phase));
    Extend(c, s, s', PrepareOk(p, replies), clean);
  }

  lemma DoFallThrough(c: Config, s: State, p: nat, replies: map<nat, Message>, highest: nat) returns (s': State)
    requires Reachable(c, s, false) && PrepareFails(c, s, p, replies, highest) && PhaseOf(s, p).bowOut >= BOW_OUT
    ensures Reachable(c, s', false) && OnlyMoved(s, s', p)
    ensures PhaseOf(s', p).ReadyToPropose? && PhaseOf(s', p).req == PhaseOf(s, p).req && Number(s', p) == highest + 1
    ensures PhaseOf(s', p).bowOut == PhaseOf(s, p).bowOut + 1
    ensures Leads(c, s, s', [FallThrough(p, replies, highest)])
  {
    var phase := ReadyToPropose(PhaseOf(s, p).req, PhaseOf(s, p).bowOut + 1, None);
    s' := s.(proposers := Move(s, p, highest + 1, phase));
    Extend(c, s, s', FallThrough(p, replies, highest), false);
  }

  lemma DoSendPropose(c: Config, s: State, p: nat, clean: bool) returns (s': State, m: Message)
    requires Reachable(c, s, clean) && p in s.proposers && PhaseOf(s, p).ReadyToPropose?
    ensures Reachable(c, s', clean) && OnlyMoved(s, s', p)
    ensures m in s'.net && m.Propose? && m.num == Number(s, p) && m.req == PhaseOf(s, p).req
    ensures s'.proposers[p] == ProposerState(m.num, Proposing(m.round, m.req, PhaseOf(s, p).bowOut))
    ensures Leads(c, s, s', [SendPropose(p)])
  {
    m := Propose(s.nextRound, Number(s, p), PhaseOf(s, p).req, PhaseOf(s, p).prep);
    var phase := Proposing(s.nextRound, PhaseOf(s, p).req, PhaseOf(s, p).bowOut);
    s' := s.(proposers := Move(s, p, Number(s, p), phase), nextRound := s.nextRound + 1, net := s.net + {m});
    Extend(c, s, s', SendPropose(p), clean);
  }

  lemma DoProposeDone(c: Config, s: State, p: nat, replies: map<nat, Message>, highest: nat, clean: bool)
    returns (s': State)
    requires Reachable(c, s, clean) && p in s.proposers && PhaseOf(s, p).Proposing?
    requires Replies(c, s, PhaseOf(s, p).round, replies) && HighestSeen(Number(s, p), replies, highest)
    ensures Reachable(c, s', clean) && OnlyMoved(s, s', p)
    ensures var again := |Accepters(replies)| < c.Majority() && PhaseOf(s, p).bowOut < BOW_OUT;
            s'.proposers[p] == ProposerState(highest + 1,
              if again then ReadyToPrepare(PhaseOf(s, p).req, PhaseOf(s, p).bowOut) else Idle)
    ensures s'.net == s.net && Leads(c, s, s', [ProposeDone(p, replies, highest)])
  {
    var again := |Accepters(replies)| < c.Majority() && PhaseOf(s, p).bowOut < BOW_OUT;
    var phase := if again then ReadyToPrepare(PhaseOf(s, p).req, PhaseOf(s, p).bowOut) else Idle;
    s' := s.(proposers := Move(s, p, highest + 1, phase));
    Extend(c, s, s', ProposeDone(p, replies, highest), clean);
  }

  /** A request given up between two calls. */
  lemma DoStop(c: Config, s: State, p: nat, clean: bool) returns (s': State)
    requires Reachable(c, s, clean) && p in s.proposers
    requires PhaseOf(s, p).ReadyToPrepare? || PhaseOf(s, p).ReadyToPropose?
    ensures Reachable(c, s', clean) && OnlyMoved(s, s', p)
    ensures s'.proposers[p] == ProposerState(Number(s, p), Idle)
  {
    s' := s.(proposers := Move(s, p, Number(s, p), Idle));
    Extend(c, s, s', Stop(p), clean);
  }

  lemma NothingRead(c: Config, s: State, p: nat)
    requires c.Valid() && p in s.proposers && PhaseOf(s, p).Preparing?
    ensures PrepareFails(c, s, p, map[], Number(s, p))
  {
    assert Promisers(map[]) == {};
  }

  /** A round whose replies are all lost: the proposer takes the next number and tries again. */
  lemma LoseRound(c: Config, s: State, p: nat, clean: bool) returns (s': State)
    requires c.Valid() && Reachable(c, s, clean) && p in s.proposers
    requires PhaseOf(s, p).ReadyToPrepare? && PhaseOf(s, p).bowOut < BOW_OUT
    ensures Reachable(c, s', clean) && OnlyMoved(s, s', p)
    ensures s'.proposers[p]
         == ProposerState(Number(s, p) + 1, ReadyToPrepare(PhaseOf(s, p).req, PhaseOf(s, p).bowOut + 1))
  {
    var sent := DoSendPrepare(c, s, p, clean);
    s' := LoseReplies(c, sent, p, clean);
    MovedTwice(s, sent, s', p);
  }

  lemma LoseReplies(c: Config, s: State, p: nat, clean: bool) returns (s': State)
    requires c.Valid() && Reachable(c, s, clean) && p in s.proposers
    requires PhaseOf(s, p).Preparing? && PhaseOf(s, p).bowOut < BOW_OUT
    ensures Reachable(c, s', clean) && OnlyMoved(s, s', p)
    ensures s'.proposers[p]
         == ProposerState(Number(s, p) + 1, ReadyToPrepare(PhaseOf(s, p).req, PhaseOf(s, p).bowOut + 1))
  {
    NothingRead(c, s, p);
    s' := DoRetry(c, s, p, map[], Number(s, p), clean);
  }

  /** `k` lost rounds in a row advance the number and the retry counter by `k`. */
  lemma {:induction false} LoseRounds(c: Config, s: State, p: nat, k: nat, clean: bool) returns (s': State)
    requires c.Valid() && Reachable(c, s, clean) && p in s.proposers
    requires PhaseOf(s, p).ReadyToPrepare? && PhaseOf(s, p).bowOut + k <= BOW_OUT
    ensures Reachable(c, s', clean) && OnlyMoved(s, s', p)
    ensures s'.proposers[p]
         == ProposerState(Number(s, p) + k, ReadyToPrepare(PhaseOf(s, p).req, PhaseOf(s, p).bowOut + k))
    decreases k
  {
    if k == 0 {
      s' := s;
    } else {
      var again := LoseRound(c, s, p, clean);
      s' := LoseRounds(c, again, p, k - 1, clean);
      MovedTwice(s, again, s', p);
    }
  }

  // ----- accepter steps -----

  /** Only accepters answered. */
  ghost predicate OnlyAnswered(s: State, s': State)
  {
    && s'.proposers == s.proposers && s'.nextRound == s.nextRound && s'.learners == s.learners
    && s.net <= s'.net && s.datagrams <= s'.datagrams && s'.accepters.Keys == s.accepters.Keys
  }

  lemma DoDeliverPrepare(c: Config, s: State, a: nat, m: Message, clean: bool) returns (s': State)
    requires Reachable(c, s, clean) && a in s.accepters && m in s.net && m.Prepare?
    ensures Reachable(c, s', clean) && OnlyAnswered(s, s') && s'.datagrams == s.datagrams
    ensures s'.accepters == s.accepters[a := HandlePrepare(s.accepters[a], a, m).0]
    ensures HandlePrepare(s.accepters[a], a, m).1 in s'.net
    ensures Leads(c, s, s', [DeliverPrepare(a, m)])
  {
    var (acc, ack) := HandlePrepare(s.accepters[a], a, m);
    s' := s.(accepters := s.accepters[a := acc], net := s.net + {ack});
    Extend(c, s, s', DeliverPrepare(a, m), clean);
  }

  lemma DoDeliverPropose(c: Config, s: State, a: nat, m: Message, clean: bool) returns (s': State)
    requires Reachable(c, s, clean) && a in s.accepters && m in s.net && m.Propose?
    ensures Reachable(c, s', clean) && OnlyAnswered(s, s')
    ensures s'.accepters == s.accepters[a := HandlePropose(s.accepters[a], a, m).0]
    ensures HandlePropose(s.accepters[a], a, m).1 in s'.net
    ensures HandlePropose(s.accepters[a], a, m).1.Accepted? ==>
        forall l | l in s.learners :: Datagram(a, l, m.num, m.req) in s'.datagrams
    ensures Leads(c, s, s', [DeliverPropose(a, m)])
  {
    var (acc, ack) := HandlePropose(s.accepters[a], a, m);
    var sent := if ack.Accepted? then s.datagrams + Broadcast(s, a, m) else s.datagrams;
    s' := s.(accepters := s.accepters[a := acc], net := s.net + {ack}, datagrams := sent);
    Extend(c, s, s', DeliverPropose(a, m), clean);
  }

  lemma DoAccept(c: Config, s: State, a: nat, m: Message, clean: bool) returns (s': State)
    requires Reachable(c, s, clean) && a in s.accepters && m in s.net && m.Propose?
    requires s.accepters[a].promised == m.num > s.accepters[a].accepted
    ensures Reachable(c, s', clean) && OnlyAnswered(s, s')
    ensures forall l | l in s.learners :: Datagram(a, l, m.num, m.req) in s'.datagrams
    ensures s'.accepters == s.accepters[a := AccepterState(m.num, m.num)]
  {
    s' := DoDeliverPropose(c, s, a, m, clean);
  }

  /** The accepters in `todo` promise the number of `m`. */
  lemma {:induction false} AllPromise(c: Config, s: State, m: Message, todo: set<nat>, clean: bool) returns (s': State)
    requires Reachable(c, s, clean) && m in s.net && m.Prepare? && todo <= s.accepters.Keys
    requires forall a | a in todo :: s.accepters[a].promised < m.num
    ensures Reachable(c, s', clean) && OnlyAnswered(s, s')
    ensures forall a | a in todo :: Promise(m.round, a, m.num) in s'.net
    ensures forall a | a in s.accepters ::
        s'.accepters[a] == if a in todo then AccepterState(m.num, s.accepters[a].accepted) else s.accepters[a]
    decreases todo
  {
    if todo == {} {
      s' := s;
    } else {
      var a :| a in todo;
      var s1 := DoDeliverPrepare(c, s, a, m, clean);
      s' := AllPromise(c, s1, m, todo - {a}, clean);
    }
  }

  /** The accepters in `todo` accept the request of `m`. */
  lemma {:induction false} AllAccept(c: Config, s: State, m: Message, todo: set<nat>, clean: bool) returns (s': State)
    requires Reachable(c, s, clean) && m in s.net && m.Propose? && todo <= s.accepters.Keys
    requires forall a | a in todo :: s.accepters[a].promised == m.num > s.accepters[a].accepted
    ensures Reachable(c, s', clean) && OnlyAnswered(s, s')
    ensures forall a, l | a in todo && l in s.learners :: Datagram(a, l, m.num, m.req) in s'.datagrams
    ensures forall a | a in s.accepters && a !in todo :: s'.accepters[a] == s.accepters[a]
    decreases todo
  {
    if todo == {} {
      s' := s;
    } else {
      var a :| a in todo;
      var s1 := DoAccept(c, s, a, m, clean);
      s' := AllAccept(c, s1, m, todo - {a}, clean);
    }
  }

  /** A quorum of promises to its round lets a proposer propose. */
  lemma ReadPromises(c: Config, s: State, p: nat, clean: bool) returns (s': State, m: Message)
    requires c.Valid() && Reachable(c, s, clean) && p in s.proposers && PhaseOf(s, p).Preparing?
    requires forall a | a in c.accepters :: Promise(PhaseOf(s, p).round, a, Number(s, p)) in s.net
    ensures Reachable(c, s', clean) && OnlyMoved(s, s', p)
    ensures m in s'.net && m.Propose? && m.num == Number(s, p) && m.req == PhaseOf(s, p).req
  {
    var round, n := PhaseOf(s, p).round, Number(s, p);
    var replies := map a | a in c.accepters :: Promise(round, a, n);
    assert Promisers(replies) == c.accepters;
    var s1 := DoPrepareOk(c, s, p, replies, clean);
    s', m := DoSendPropose(c, s1, p, clean);
    MovedTwice(s, s1, s', p);
  }

  // ----- learner steps -----

  /** Only learner `l` moved, and only its own datagrams were used up. */
  ghost predicate OnlyHeard(s: State, s': State, l: nat)
  {
    && s'.learners.Keys == s.learners.Keys && s'.net == s.net
    && (forall k | k in s.learners && k != l :: s'.learners[k] == s.learners[k])
    && (forall d | d in s.datagrams && d.to != l :: d in s'.datagrams)
  }

  lemma HearOne(c: Config, s: State, l: nat, d: Datagram, clean: bool) returns (s': State)
    requires Reachable(c, s, clean) && l in s.learners && d in s.datagrams && d.to == l
    ensures Reachable(c, s', clean) && OnlyHeard(s, s', l) && s'.datagrams == s.datagrams - {d}
    ensures s'.learners[l].pending == Counted(s.learners[l].pending, LearnRequest(d.num, d.req, 0), c.Majority(), 0)
    ensures s'.learners[l].learned == s.learners[l].learned
  {
    var ls := s.learners[l];
    var t := Counted(ls.pending, LearnRequest(d.num, d.req, 0), c.Majority(), 0);
    s' := s.(datagrams := s.datagrams - {d}, learners := s.learners[l := LearnerState(t, ls.heard + {d}, ls.learned)]);
    Extend(c, s, s', DeliverLearn(l, d, 0), clean);
  }

  /** The learner's only entry is for number `n` and request `x`, `k` datagrams counted. */
  ghost predicate Counting(c: Config, ls: LearnerState, n: nat, x: Request, k: nat)
  {
    && ls.pending.Keys == {n} && ls.learned == []
    && ls.pending[n].req == x && ls.pending[n].crc == 0 && ls.pending[n].seen == k
        && ls.pending[n].needed == c.Majority()
  }

  /** Once an entry is open, datagrams with any request count towards it. */
  lemma {:induction false} HearRest(
    c: Config, s: State, l: nat, n: nat, x: Request, k: nat, todo: set<nat>, says: nat -> Request, clean: bool)
    returns (s': State)
    requires Reachable(c, s, clean) && l in s.learners && Counting(c, s.learners[l], n, x, k)
    requires forall a | a in todo :: Datagram(a, l, n, says(a)) in s.datagrams
    ensures Reachable(c, s', clean) && OnlyHeard(s, s', l) && Counting(c, s'.learners[l], n, x, k + |todo|)
    decreases todo
  {
    if todo == {} {
      s' := s;
    } else {
      var a :| a in todo;
      var s1 := HearOne(c, s, l, Datagram(a, l, n, says(a)), clean);
      s' := HearRest(c, s1, l, n, x, k + 1, todo - {a}, says, clean);
    }
  }

  lemma DoLearn(c: Config, s: State, l: nat, n: nat, x: Request, k: nat, clean: bool) returns (s': State)
    requires Reachable(c, s, clean) && l in s.learners && Counting(c, s.learners[l], n, x, k) && k >= c.Majority()
    ensures Reachable(c, s', clean) && OnlyHeard(s, s', l) && s'.learners[l].learned == [(n, x)]
  {
    var ls := s.learners[l];
    var ls' := LearnerState(ls.pending - {n}, ls.heard, ls.learned + [(n, ls.pending[n].req)]);
    s' := s.(learners := s.learners[l := ls']);
    Extend(c, s, s', LearnLowest(l, n), clean);
  }

  /** A fresh learner that hears all accepters learns the request of the one it hears first. */
  lemma HearAll(c: Config, s: State, l: nat, n: nat, first: nat, says: nat -> Request, clean: bool) returns (s': State)
    requires c.Valid() && Reachable(c, s, clean) && l in s.learners && first in c.accepters
    requires s.learners[l].pending == map[] && s.learners[l].learned == []
    requires forall a | a in c.accepters :: Datagram(a, l, n, says(a)) in s.datagrams
    ensures Reachable(c, s', clean) && OnlyHeard(s, s', l) && s'.learners[l].learned == [(n, says(first))]
  {
    var x := says(first);
    var s1 := HearFirst(c, s, l, n, first, x, clean);
    s' := HearAndLearn(c, s1, l, n, x, c.accepters - {first}, says, clean);
    HeardTwice(s, s1, s', l);
  }

  lemma HeardTwice(s: State, s': State, s'': State, l: nat)
    requires OnlyHeard(s, s', l) && OnlyHeard(s', s'', l)
    ensures OnlyHeard(s, s'', l)
  {
  }

  lemma HearAndLearn(
    c: Config, s: State, l: nat, n: nat, x: Request, todo: set<nat>, says: nat -> Request, clean: bool)
    returns (s': State)
    requires Reachable(c, s, clean) && l in s.learners && Counting(c, s.learners[l], n, x, 1)
    requires 1 + |todo| >= c.Majority() && forall a | a in todo :: Datagram(a, l, n, says(a)) in s.datagrams
    ensures Reachable(c, s', clean) && OnlyHeard(s, s', l) && s'.learners[l].learned == [(n, x)]
  {
    var s1 := HearRest(c, s, l, n, x, 1, todo, says, clean);
    s' := DoLearn(c, s1, l, n, x, 1 + |todo|, clean);
    HeardTwice(s, s1, s', l);
  }

  lemma HearFirst(c: Config, s: State, l: nat, n: nat, first: nat, x: Request, clean: bool) returns (s': State)
    requires Reachable(c, s, clean) && l in s.learners && Datagram(first, l, n, x) in s.datagrams
    requires s.learners[l].pending == map[] && s.learners[l].learned == []
    ensures Reachable(c, s', clean) && OnlyHeard(s, s', l) && Counting(c, s'.learners[l], n, x, 1)
    ensures s'.datagrams == s.datagrams - {Datagram(first, l, n, x)}
  {
    s' := HearOne(c, s, l, Datagram(first, l, n, x), clean);
  }
}
