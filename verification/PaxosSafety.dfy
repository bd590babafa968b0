/** What every run of the protocol keeps: promises and acceptances are given once, one request per
    number when no proposer falls through, and at most one chosen request per number always. */
module PaxosSafety {
  import opened Basics
  import opened SetSizes
  import opened Quorums
  import opened PaxosRoles
  import opened PaxosProtocol

  ghost predicate Typed(c: Config, s: State)
  {
    s.accepters.Keys == c.accepters && s.proposers.Keys == c.proposers && s.learners.Keys == c.learners
  }

  /** An accepter's counters bound everything it ever said. */
  ghost predicate CountersBound(s: State)
  {
    && (forall a | a in s.accepters :: s.accepters[a].accepted <= s.accepters[a].promised)
    && (forall r, a, n: nat | Promise(r, a, n) in s.net :: a in s.accepters && 0 < n <= s.accepters[a].promised)
    && (forall r, a, n: nat, x | Accepted(r, a, n, x) in s.net :: a in s.accepters && 0 < n <= s.accepters[a].accepted)
  }

  /** Each accepter promises a number at most once, and accepts a number at most once. */
  ghost predicate SaidOnce(s: State)
  {
    && (forall r, r', a, n | Promise(r, a, n) in s.net && Promise(r', a, n) in s.net :: r == r')
    && (forall r, r', a, n, x, y | Accepted(r, a, n, x) in s.net && Accepted(r', a, n, y) in s.net ::
          r == r' && x == y)
  }

  /** Rounds name PREPARE calls uniquely. */
  ghost predicate RoundsNamed(s: State)
  {
    && (forall r: nat, n, x | Prepare(r, n, x) in s.net :: r < s.nextRound)
    && (forall r, n, n', x, y | Prepare(r, n, x) in s.net && Prepare(r, n', y) in s.net :: n == n' && x == y)
  }

  ghost predicate PrepareSent(net: set<Message>, r: nat, n: nat)
  {
    exists x :: Prepare(r, n, x) in net
  }

  ghost predicate ProposeSent(net: set<Message>, r: nat, n: nat, x: Request)
  {
    exists k :: Propose(r, n, x, k) in net
  }

  /** Replies answer what was sent. */
  ghost predicate Answers(s: State)
  {
    && (forall r, a, n: nat | Promise(r, a, n) in s.net :: PrepareSent(s.net, r, n))
    && (forall r, a, n: nat, x | Accepted(r, a, n, x) in s.net :: ProposeSent(s.net, r, n, x))
  }

  ghost predicate Inv(c: Config, s: State)
  {
    Typed(c, s) && CountersBound(s) && SaidOnce(s) && RoundsNamed(s) && Answers(s)
  }

  lemma InitInv(c: Config, s: State)
    requires Init(c, s)
    ensures Inv(c, s)
  {
  }

  // ----- the invariant is kept: a step leaves the network alone, sends one request, or answers one -----

  lemma SentKept(net: set<Message>, net': set<Message>)
    requires net <= net'
    ensures forall r, n | PrepareSent(net, r, n) :: PrepareSent(net', r, n)
    ensures forall r, n, x | ProposeSent(net, r, n, x) :: ProposeSent(net', r, n, x)
  {
    forall r, n | PrepareSent(net, r, n) ensures PrepareSent(net', r, n) {
      var x :| Prepare(r, n, x) in net;
      assert Prepare(r, n, x) in net';
    }
    forall r, n, x | ProposeSent(net, r, n, x) ensures ProposeSent(net', r, n, x) {
      var k :| Propose(r, n, x, k) in net;
      assert Propose(r, n, x, k) in net';
    }
  }

  lemma SendPrepareInv(c: Config, s: State, s': State, p: nat)
    requires Inv(c, s) && SendPrepareStep(s, s', p)
    ensures Inv(c, s')
  {
    SentKept(s.net, s'.net);
  }

  lemma SendProposeInv(c: Config, s: State, s': State, p: nat)
    requires Inv(c, s) && SendProposeStep(s, s', p)
    ensures Inv(c, s')
  {
    SentKept(s.net, s'.net);
  }

  lemma DeliverPrepareInv(c: Config, s: State, s': State, a: nat, m: Message)
    requires Inv(c, s) && DeliverPrepareStep(s, s', a, m)
    ensures Inv(c, s')
  {
    SentKept(s.net, s'.net);
    assert Prepare(m.round, m.num, m.req) in s.net;
    assert PrepareSent(s.net, m.round, m.num);
  }

  lemma DeliverProposeInv(c: Config, s: State, s': State, a: nat, m: Message)
    requires Inv(c, s) && DeliverProposeStep(s, s', a, m)
    ensures Inv(c, s')
  {
    SentKept(s.net, s'.net);
    assert Propose(m.round, m.num, m.req, m.prep) in s.net;
    assert ProposeSent(s.net, m.round, m.num, m.req);
  }

  predicate TouchesNetwork(step: Step)
  {
    step.SendPrepare? || step.SendPropose? || step.DeliverPrepare? || step.DeliverPropose?
  }

  lemma NextInv(c: Config, s: State, s': State, step: Step)
    requires Inv(c, s) && Next(c, s, s', step)
    ensures Inv(c, s')
  {
    if TouchesNetwork(step) {
      NetworkInv(c, s, s', step);
    }
  }

  lemma NetworkInv(c: Config, s: State, s': State, step: Step)
    requires Inv(c, s) && Next(c, s, s', step) && TouchesNetwork(step)
    ensures Inv(c, s')
  {
    if step.SendPrepare? {
      SendPrepareInv(c, s, s', step.p);
    } else if step.SendPropose? {
      SendProposeInv(c, s, s', step.p);
    } else if step.DeliverPrepare? {
      DeliverPrepareInv(c, s, s', step.a, step.m);
    } else {
      DeliverProposeInv(c, s, s', step.a, step.m);
    }
  }

  lemma {:induction false} RunInv(c: Config, states: seq<State>, steps: seq<Step>)
    requires IsRun(c, states, steps)
    ensures Inv(c, states[|steps|])
    decreases |steps|
  {
    if steps == [] {
      InitInv(c, states[0]);
    } else {
      RunPrefix(c, states, steps);
      RunInv(c, states[..|steps|], steps[..|steps| - 1]);
      NextInv(c, states[|steps| - 1], states[|steps|], steps[|steps| - 1]);
    }
  }

  // ----- one request per number, when no proposer falls through -----

  ghost function PromisersOf(c: Config, net: set<Message>, round: nat, n: nat): set<nat>
  {
    set a | a in c.accepters && Promise(round, a, n) in net
  }

  ghost predicate Backed(c: Config, net: set<Message>, round: nat, n: nat)
  {
    |PromisersOf(c, net, round, n)| >= c.Majority()
  }

  /** The prepare round a proposer may still turn into one PROPOSE. */
  ghost function ActiveRound(phase: Phase): Option<nat>
  {
    match phase
    case Preparing(round, _, _) => Some(round)
    case ReadyToPropose(_, _, prep) => prep
    case _ => None
  }

  /** Nothing has been proposed yet on the strength of the prepare round `k`. */
  ghost predicate Unspent(net: set<Message>, k: Option<nat>)
  {
    forall r, n, x :: Propose(r, n, x, k) !in net
  }

  /** A proposer's active round is its own, unspent, and ties its number to the promises. */
  ghost predicate ActiveOk(c: Config, s: State, p: nat)
    requires p in s.proposers
  {
    var phase := PhaseOf(s, p);
    && (phase.Preparing? ==> Prepare(phase.round, Number(s, p), phase.req) in s.net)
    && (phase.ReadyToPropose? ==> phase.prep.Some? && Backed(c, s.net, phase.prep.value, Number(s, p)))
    && (ActiveRound(phase).Some? ==> ActiveRound(phase).value < s.nextRound && Unspent(s.net, ActiveRound(phase)))
  }

  ghost predicate ActiveRounds(c: Config, s: State)
  {
    && (forall p | p in s.proposers :: ActiveOk(c, s, p))
    && (forall p, p' | p in s.proposers && p' in s.proposers && p != p' && ActiveRound(PhaseOf(s, p)).Some? ::
          ActiveRound(PhaseOf(s, p)) != ActiveRound(PhaseOf(s, p')))
  }

  ghost predicate ProposeOk(c: Config, s: State, n: nat, k: Option<nat>)
  {
    k.Some? && k.value < s.nextRound && Backed(c, s.net, k.value, n)
  }

  ghost predicate ProposesBacked(c: Config, s: State)
  {
    && (forall r, n, x, k | Propose(r, n, x, k) in s.net :: ProposeOk(c, s, n, k))
    && (forall r, r', n, n', x, y, k | Propose(r, n, x, k) in s.net && Propose(r', n', y, k) in s.net ::
          r == r' && n == n' && x == y)
  }

  ghost predicate CleanInv(c: Config, s: State)
  {
    Inv(c, s) && ActiveRounds(c, s) && ProposesBacked(c, s)
  }

  lemma BackedKept(c: Config, net: set<Message>, net': set<Message>)
    requires net <= net'
    ensures forall r, n | Backed(c, net, r, n) :: Backed(c, net', r, n)
  {
    forall r, n | Backed(c, net, r, n) ensures Backed(c, net', r, n) {
      SubsetSize(PromisersOf(c, net, r, n), PromisersOf(c, net', r, n));
    }
  }

  /** A successful `prepare` was promised its own number by a quorum. */
  lemma PrepareOkBacked(c: Config, s: State, s': State, p: nat, replies: map<nat, Message>)
    requires CleanInv(c, s) && PrepareOkStep(c, s, s', p, replies)
    ensures Backed(c, s.net, PhaseOf(s, p).round, Number(s, p))
  {
    var round, number, req := PhaseOf(s, p).round, Number(s, p), PhaseOf(s, p).req;
    assert ActiveOk(c, s, p);
    forall a | a in Promisers(replies)
      ensures a in PromisersOf(c, s.net, round, number)
    {
      assert replies[a] == Promise(round, a, replies[a].num);
      assert PrepareSent(s.net, round, replies[a].num);
      var x :| Prepare(round, replies[a].num, x) in s.net;
    }
    SubsetSize(Promisers(replies), PromisersOf(c, s.net, round, number));
  }

  lemma PrepareOkClean(c: Config, s: State, s': State, p: nat, replies: map<nat, Message>)
    requires CleanInv(c, s) && PrepareOkStep(c, s, s', p, replies)
    ensures ActiveRounds(c, s')
  {
    PrepareOkBacked(c, s, s', p, replies);
    forall q | q in s'.proposers ensures ActiveOk(c, s', q) {
      assert ActiveOk(c, s, q);
    }
  }

  lemma SendPrepareClean(c: Config, s: State, s': State, p: nat)
    requires CleanInv(c, s) && SendPrepareStep(s, s', p)
    ensures ActiveRounds(c, s')
  {
    BackedKept(c, s.net, s'.net);
    forall q | q in s'.proposers ensures ActiveOk(c, s', q) {
      assert ActiveOk(c, s, q);
    }
  }

  /** What was proposed stays backed while nothing more is proposed. */
  lemma NothingProposed(c: Config, s: State, s': State)
    requires ProposesBacked(c, s) && s.net <= s'.net && s.nextRound <= s'.nextRound
    requires forall r, n, x, k :: Propose(r, n, x, k) in s'.net ==> Propose(r, n, x, k) in s.net
    ensures ProposesBacked(c, s')
  {
    BackedKept(c, s.net, s'.net);
    forall r, n, x, k | Propose(r, n, x, k) in s'.net ensures ProposeOk(c, s', n, k) {
      assert ProposeOk(c, s, n, k);
    }
  }

  lemma SendProposeActive(c: Config, s: State, s': State, p: nat)
    requires CleanInv(c, s) && SendProposeStep(s, s', p)
    ensures ActiveRounds(c, s')
  {
    BackedKept(c, s.net, s'.net);
    forall q | q in s'.proposers ensures ActiveOk(c, s', q) {
      assert ActiveOk(c, s, q);
      assert ActiveOk(c, s, p);
    }
  }

  lemma SendProposeClean(c: Config, s: State, s': State, p: nat)
    requires CleanInv(c, s) && SendProposeStep(s, s', p)
    ensures ProposesBacked(c, s')
  {
    BackedKept(c, s.net, s'.net);
    assert ActiveOk(c, s, p);
    forall r, n, x, k | Propose(r, n, x, k) in s'.net ensures ProposeOk(c, s', n, k) {
      assert Propose(r, n, x, k) in s.net ==> ProposeOk(c, s, n, k);
    }
  }

  /** Steps that send no PROPOSE and move no proposer keep what was proposed and prepared. */
  lemma AnswerClean(c: Config, s: State, s': State, ack: Message)
    requires CleanInv(c, s) && s'.net == s.net + {ack} && (ack.Promise? || ack.Accepted? || ack.Nack?)
    requires s'.proposers == s.proposers && s'.nextRound == s.nextRound
    ensures ActiveRounds(c, s')
  {
    BackedKept(c, s.net, s'.net);
    forall q | q in s'.proposers ensures ActiveOk(c, s', q) {
      assert ActiveOk(c, s, q);
    }
  }

  lemma OtherProposerSteps(c: Config, s: State, s': State, step: Step)
    requires Next(c, s, s', step) && !TouchesNetwork(step) && !step.PrepareOk? && !step.FallThrough?
    ensures s'.net == s.net && s'.nextRound == s.nextRound && s'.proposers.Keys == s.proposers.Keys
    ensures forall p | p in s.proposers :: s'.proposers[p] == s.proposers[p] || ActiveRound(PhaseOf(s', p)).None?
    ensures forall p | p in s.proposers :: s'.proposers[p] == s.proposers[p] || !PhaseOf(s', p).ReadyToPropose?
  {
  }

  lemma QuietClean(c: Config, s: State, s': State, step: Step)
    requires CleanInv(c, s) && Next(c, s, s', step)
    requires !TouchesNetwork(step) && !step.PrepareOk? && !step.FallThrough?
    ensures ActiveRounds(c, s')
  {
    OtherProposerSteps(c, s, s', step);
    forall q | q in s'.proposers ensures ActiveOk(c, s', q) {
      assert ActiveOk(c, s, q);
    }
  }

  lemma OnlySendProposes(c: Config, s: State, s': State, step: Step)
    requires Next(c, s, s', step) && !step.SendPropose?
    ensures s.net <= s'.net && s.nextRound <= s'.nextRound
    ensures forall r, n, x, k :: Propose(r, n, x, k) in s'.net ==> Propose(r, n, x, k) in s.net
  {
  }

  lemma NextProposes(c: Config, s: State, s': State, step: Step)
    requires CleanInv(c, s) && Next(c, s, s', step)
    ensures ProposesBacked(c, s')
  {
    if step.SendPropose? {
      SendProposeClean(c, s, s', step.p);
    } else {
      OnlySendProposes(c, s, s', step);
      NothingProposed(c, s, s');
    }
  }

  lemma NextActive(c: Config, s: State, s': State, step: Step)
    requires CleanInv(c, s) && Next(c, s, s', step) && !step.FallThrough?
    ensures ActiveRounds(c, s')
  {
    if step.SendPrepare? {
      SendPrepareClean(c, s, s', step.p);
    } else if step.SendPropose? {
      SendProposeActive(c, s, s', step.p);
    } else if step.DeliverPrepare? {
      AnswerClean(c, s, s', HandlePrepare(s.accepters[step.a], step.a, step.m).1);
    } else if step.DeliverPropose? {
      AnswerClean(c, s, s', HandlePropose(s.accepters[step.a], step.a, step.m).1);
    } else if step.PrepareOk? {
      PrepareOkClean(c, s, s', step.p, step.replies);
    } else {
      QuietClean(c, s, s', step);
    }
  }

  lemma NextClean(c: Config, s: State, s': State, step: Step)
    requires CleanInv(c, s) && Next(c, s, s', step) && !step.FallThrough?
    ensures CleanInv(c, s')
  {
    NextInv(c, s, s', step);
    NextProposes(c, s, s', step);
    NextActive(c, s, s', step);
  }

  lemma {:induction false} CleanRunInv(c: Config, states: seq<State>, steps: seq<Step>)
    requires IsRun(c, states, steps) && NoFallThrough(steps)
    ensures CleanInv(c, states[|steps|])
    decreases |steps|
  {
    if steps == [] {
      InitInv(c, states[0]);
    } else {
      RunPrefix(c, states, steps);
      CleanRunInv(c, states[..|steps|], steps[..|steps| - 1]);
      NextClean(c, states[|steps| - 1], states[|steps|], steps[|steps| - 1]);
    }
  }

  /** When `propose` is reached only through a successful `prepare`, at most one PROPOSE is ever sent
      under a number, by any proposer, so in particular one request per number. */
  lemma {:induction false} OneProposePerNumber(c: Config, states: seq<State>, steps: seq<Step>)
    requires c.Valid() && IsRun(c, states, steps) && NoFallThrough(steps)
    ensures forall r, r', n, x, y, k, k' ::
        Propose(r, n, x, k) in states[|steps|].net && Propose(r', n, y, k') in states[|steps|].net ==> r == r' && x == y
    ensures OneRequestPerNumber(states[|steps|].net)
  {
    CleanRunInv(c, states, steps);
    var s := states[|steps|];
    forall r, r', n, x, y, k, k' | Propose(r, n, x, k) in s.net && Propose(r', n, y, k') in s.net
      ensures r == r' && x == y
    {
      assert ProposeOk(c, s, n, k) && ProposeOk(c, s, n, k');
      var a := QuorumsIntersect(c.accepters, PromisersOf(c, s.net, k.value, n), PromisersOf(c, s.net, k'.value, n));
      assert Promise(k.value, a, n) in s.net && Promise(k'.value, a, n) in s.net;
    }
  }

  // ----- what holds even with the fall-through -----

  /** In every run no two different requests are each accepted by a quorum under the same number. */
  lemma {:induction false} ChosenIsUnique(
    c: Config, states: seq<State>, steps: seq<Step>, n: nat, x: Request, y: Request)
    requires c.Valid() && IsRun(c, states, steps)
    requires Chosen(c, states[|steps|].net, n, x) && Chosen(c, states[|steps|].net, n, y)
    ensures x == y
  {
    RunInv(c, states, steps);
    var net := states[|steps|].net;
    var a := QuorumsIntersect(c.accepters, AcceptersOf(c, net, n, x), AcceptersOf(c, net, n, y));
    var r :| Accepted(r, a, n, x) in net;
    var r' :| Accepted(r', a, n, y) in net;
  }

  /** One step by which an accepter that has promised `n` accepts nothing below `n`. */
  lemma StepFreezes(c: Config, s: State, s': State, step: Step, a: nat, n: nat)
    requires Next(c, s, s', step) && a in s.accepters && s.accepters[a].promised >= n
    ensures a in s'.accepters && s'.accepters[a].promised >= n
    ensures forall r, k: nat, x | Accepted(r, a, k, x) in s'.net && k < n :: Accepted(r, a, k, x) in s.net
  {
  }

  /** From state `i` of a run on, an accepter that has promised `n` accepts nothing below `n` anew. */
  lemma {:induction false} PromiseFreezes(
    c: Config, states: seq<State>, steps: seq<Step>, i: nat, j: nat, a: nat, n: nat)
    requires IsRun(c, states, steps) && i <= j <= |steps|
    requires a in states[i].accepters && states[i].accepters[a].promised >= n
    ensures a in states[j].accepters && states[j].accepters[a].promised >= n
    ensures forall r, k: nat, x | Accepted(r, a, k, x) in states[j].net && k < n ::
        Accepted(r, a, k, x) in states[i].net
    decreases j
  {
    if i < j {
      PromiseFreezes(c, states, steps, i, j - 1, a, n);
      assert StepAt(c, states, steps, j - 1);
      StepFreezes(c, states[j - 1], states[j], steps[j - 1], a, n);
    }
  }

  /** Once every member of a quorum has promised `n`, a smaller number can become chosen only if some
      member of that quorum had already accepted it at that moment. */
  lemma {:induction false} LowerNumbersClosed(
    c: Config, states: seq<State>, steps: seq<Step>, i: nat, quorum: set<nat>, n: nat, k: nat, req: Request)
    returns (a: nat, r: nat)
    requires c.Valid() && IsRun(c, states, steps) && i <= |steps|
    requires quorum <= c.accepters && |quorum| >= c.Majority()
    requires forall q | q in quorum :: exists r :: Promise(r, q, n) in states[i].net
    requires k < n && Chosen(c, states[|steps|].net, k, req)
    ensures a in quorum && Accepted(r, a, k, req) in states[i].net
  {
    a := QuorumsIntersect(c.accepters, quorum, AcceptersOf(c, states[|steps|].net, k, req));
    r :| Accepted(r, a, k, req) in states[|steps|].net;
    var r0 :| Promise(r0, a, n) in states[i].net;
    RunTo(c, states, steps, i);
    RunInv(c, states[..i + 1], steps[..i]);
    PromiseFreezes(c, states, steps, i, |steps|, a, n);
  }
}
