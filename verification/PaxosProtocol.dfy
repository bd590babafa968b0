/** The replication protocol as a state machine: proposers, accepters and learners exchanging messages
    over a network that may lose, delay, reorder and repeat everything except LEARN datagrams, which
    are delivered at most once. */
module PaxosProtocol {
  import opened Basics
  import opened Quorums
  import opened PaxosRoles

  /** Fixed membership; ids stand for host names. */
  datatype Config = Config(accepters: set<nat>, proposers: set<nat>, learners: set<nat>) {
    ghost predicate Valid() { accepters != {} }
    ghost function Majority(): nat { Quorum(|accepters|) }
  }

  /** Where a proposer stands in its retry loop. */
  datatype Phase =
    | Idle
    | ReadyToPrepare(req: Request, bowOut: nat)
    | Preparing(round: nat, req: Request, bowOut: nat)
    | ReadyToPropose(req: Request, bowOut: nat, prep: Option<nat>)
    | Proposing(round: nat, req: Request, bowOut: nat)

  datatype ProposerState = ProposerState(number: nat, phase: Phase)

  /** LEARN datagrams are addressed: one per accepting accepter and learner. */
  datatype Datagram = Datagram(from: nat, to: nat, num: nat, req: Request)

  /** `heard` and `learned` are history variables: the datagrams counted and the requests executed. */
  datatype LearnerState = LearnerState(
    pending: PendingTable, heard: set<Datagram>, learned: seq<(nat, Request)>)

  datatype State = State(
    nextRound: nat,
    proposers: map<nat, ProposerState>,
    accepters: map<nat, AccepterState>,
    learners: map<nat, LearnerState>,
    net: set<Message>,
    datagrams: set<Datagram>)

  ghost predicate Init(c: Config, s: State)
  {
    && s.nextRound == 0 && s.net == {} && s.datagrams == {}
    && s.proposers.Keys == c.proposers && s.accepters.Keys == c.accepters && s.learners.Keys == c.learners
    && (forall p | p in s.proposers :: s.proposers[p] == ProposerState(0, Idle))
    && (forall a | a in s.accepters :: s.accepters[a] == AccepterState(0, 0))
    && (forall l | l in s.learners :: s.learners[l] == LearnerState(map[], {}, []))
  }

  /** A collection of replies to one call: at most one per accepter, each really sent to that call. */
  ghost predicate Replies(c: Config, s: State, round: nat, replies: map<nat, Message>)
  {
    forall a | a in replies ::
      && a in c.accepters && replies[a] in s.net
      && (replies[a].Promise? || replies[a].Accepted? || replies[a].Nack?)
      && replies[a].round == round && replies[a].from == a
  }

  function Promisers(replies: map<nat, Message>): set<nat>
  {
    set a | a in replies && replies[a].Promise?
  }

  function Accepters(replies: map<nat, Message>): set<nat>
  {
    set a | a in replies && replies[a].Accepted?
  }

  /** `h` is the maximum of `start` and the numbers of the NACKs among the replies. */
  ghost predicate HighestSeen(start: nat, replies: map<nat, Message>, h: nat)
  {
    && h >= start
    && (forall a | a in replies && replies[a].Nack? :: replies[a].num <= h)
    && (h == start || exists a :: a in replies && replies[a].Nack? && replies[a].num == h)
  }

  datatype Step =
    | Begin(p: nat, req: Request)
    | SendPrepare(p: nat)
    | PrepareOk(p: nat, replies: map<nat, Message>)
    | PrepareRetry(p: nat, replies: map<nat, Message>, highest: nat)
    | FallThrough(p: nat, replies: map<nat, Message>, highest: nat)
    | SendPropose(p: nat)
    | ProposeDone(p: nat, replies: map<nat, Message>, highest: nat)
    | Stop(p: nat)
    | DeliverPrepare(a: nat, m: Message)
    | DeliverPropose(a: nat, m: Message)
    | DeliverLearn(l: nat, d: Datagram, now: int)
    | Flush(l: nat, dead: set<nat>)
    | LearnLowest(l: nat, n: nat)

  // ----- proposer steps (the retry loop, cut at every network exchange) -----

  ghost function Number(s: State, p: nat): nat
    requires p in s.proposers
  {
    s.proposers[p].number
  }

  ghost function PhaseOf(s: State, p: nat): Phase
    requires p in s.proposers
  {
    s.proposers[p].phase
  }

  ghost function Move(s: State, p: nat, number: nat, phase: Phase): map<nat, ProposerState>
  {
    s.proposers[p := ProposerState(number, phase)]
  }

  ghost predicate BeginStep(s: State, s': State, p: nat, req: Request)
  {
    && p in s.proposers && PhaseOf(s, p).Idle?
    && s' == s.(proposers := Move(s, p, Number(s, p), ReadyToPrepare(req, 1)))
  }

  ghost predicate SendPrepareStep(s: State, s': State, p: nat)
  {
    && p in s.proposers && PhaseOf(s, p).ReadyToPrepare?
    && var req, bowOut := PhaseOf(s, p).req, PhaseOf(s, p).bowOut;
       s' == s.(proposers := Move(s, p, Number(s, p), Preparing(s.nextRound, req, bowOut)),
                nextRound := s.nextRound + 1,
                net := s.net + {Prepare(s.nextRound, Number(s, p), req)})
  }

  ghost predicate PrepareOkStep(c: Config, s: State, s': State, p: nat, replies: map<nat, Message>)
  {
    && p in s.proposers && PhaseOf(s, p).Preparing?
    && Replies(c, s, PhaseOf(s, p).round, replies) && |Promisers(replies)| >= c.Majority()
    && s' == s.(proposers := Move(s, p, Number(s, p),
                  ReadyToPropose(PhaseOf(s, p).req, PhaseOf(s, p).bowOut, Some(PhaseOf(s, p).round))))
  }

  ghost predicate PrepareFails(c: Config, s: State, p: nat, replies: map<nat, Message>, highest: nat)
  {
    && p in s.proposers && PhaseOf(s, p).Preparing?
    && Replies(c, s, PhaseOf(s, p).round, replies) && |Promisers(replies)| < c.Majority()
    && HighestSeen(Number(s, p), replies, highest)
  }

  ghost predicate PrepareRetryStep(c: Config, s: State, s': State, p: nat, replies: map<nat, Message>, highest: nat)
  {
    && PrepareFails(c, s, p, replies, highest) && PhaseOf(s, p).bowOut < BOW_OUT
    && s' == s.(proposers := Move(s, p, highest + 1, ReadyToPrepare(PhaseOf(s, p).req, PhaseOf(s, p).bowOut + 1)))
  }

  /** The last failed `prepare` is followed by `propose` all the same. */
  ghost predicate FallThroughStep(c: Config, s: State, s': State, p: nat, replies: map<nat, Message>, highest: nat)
  {
    && PrepareFails(c, s, p, replies, highest) && PhaseOf(s, p).bowOut >= BOW_OUT
    && s' == s.(proposers := Move(s, p, highest + 1, ReadyToPropose(PhaseOf(s, p).req, PhaseOf(s, p).bowOut + 1, None)))
  }

  ghost predicate SendProposeStep(s: State, s': State, p: nat)
  {
    && p in s.proposers && PhaseOf(s, p).ReadyToPropose?
    && var req, bowOut := PhaseOf(s, p).req, PhaseOf(s, p).bowOut;
       s' == s.(proposers := Move(s, p, Number(s, p), Proposing(s.nextRound, req, bowOut)),
                nextRound := s.nextRound + 1,
                net := s.net + {Propose(s.nextRound, Number(s, p), req, PhaseOf(s, p).prep)})
  }

  ghost predicate ProposeDoneStep(c: Config, s: State, s': State, p: nat, replies: map<nat, Message>, highest: nat)
  {
    && p in s.proposers && PhaseOf(s, p).Proposing?
    && Replies(c, s, PhaseOf(s, p).round, replies) && HighestSeen(Number(s, p), replies, highest)
    && var again := |Accepters(replies)| < c.Majority() && PhaseOf(s, p).bowOut < BOW_OUT;
       s' == s.(proposers := Move(s, p, highest + 1,
                  if again then ReadyToPrepare(PhaseOf(s, p).req, PhaseOf(s, p).bowOut) else Idle))
  }

  /** An error or a shutdown ends a request between two calls; once a call has gone out, its end raises
      the number before anything else is looked at. */
  ghost predicate StopStep(s: State, s': State, p: nat)
  {
    && p in s.proposers && (PhaseOf(s, p).ReadyToPrepare? || PhaseOf(s, p).ReadyToPropose?)
    && s' == s.(proposers := Move(s, p, Number(s, p), Idle))
  }

  // ----- accepter steps -----

  ghost predicate DeliverPrepareStep(s: State, s': State, a: nat, m: Message)
  {
    && a in s.accepters && m in s.net && m.Prepare?
    && var (acc, ack) := HandlePrepare(s.accepters[a], a, m);
       s' == s.(accepters := s.accepters[a := acc], net := s.net + {ack})
  }

  ghost predicate DeliverProposeStep(s: State, s': State, a: nat, m: Message)
  {
    && a in s.accepters && m in s.net && m.Propose?
    && var (acc, ack) := HandlePropose(s.accepters[a], a, m);
       s' == s.(accepters := s.accepters[a := acc], net := s.net + {ack},
                datagrams := if ack.Accepted? then s.datagrams + Broadcast(s, a, m) else s.datagrams)
  }

  /** The LEARN datagrams an accepter sends when it accepts. */
  ghost function Broadcast(s: State, a: nat, m: Message): set<Datagram>
    requires m.Propose?
  {
    set l | l in s.learners :: Datagram(a, l, m.num, m.req)
  }

  // ----- learner steps -----

  /** The listener has zeroed the checksum of everything it queues, so each LEARN carries 0. */
  ghost predicate DeliverLearnStep(c: Config, s: State, s': State, l: nat, d: Datagram, now: int)
  {
    && l in s.learners && d in s.datagrams && d.to == l
    && var ls := s.learners[l];
       var t := Counted(ls.pending, LearnRequest(d.num, d.req, 0), c.Majority(), now);
       s' == s.(datagrams := s.datagrams - {d},
                learners := s.learners[l := LearnerState(t, ls.heard + {d}, ls.learned)])
  }

  ghost predicate FlushStep(s: State, s': State, l: nat, dead: set<nat>)
  {
    && l in s.learners
    && var ls := s.learners[l];
       && (forall n | n in dead :: n in ls.pending && !ls.pending[n].Complete())
       && s' == s.(learners := s.learners[l := ls.(pending := ls.pending - dead)])
  }

  ghost predicate LearnLowestStep(s: State, s': State, l: nat, n: nat)
  {
    && l in s.learners
    && var ls := s.learners[l];
       && IsLowest(ls.pending, n) && ls.pending[n].Complete()
       && s' == s.(learners := s.learners[l :=
                     LearnerState(ls.pending - {n}, ls.heard, ls.learned + [(n, ls.pending[n].req)])])
  }

  ghost predicate Next(c: Config, s: State, s': State, step: Step)
  {
    match step
    case Begin(p, req) => BeginStep(s, s', p, req)
    case SendPrepare(p) => SendPrepareStep(s, s', p)
    case PrepareOk(p, replies) => PrepareOkStep(c, s, s', p, replies)
    case PrepareRetry(p, replies, highest) => PrepareRetryStep(c, s, s', p, replies, highest)
    case FallThrough(p, replies, highest) => FallThroughStep(c, s, s', p, replies, highest)
    case SendPropose(p) => SendProposeStep(s, s', p)
    case ProposeDone(p, replies, highest) => ProposeDoneStep(c, s, s', p, replies, highest)
    case Stop(p) => StopStep(s, s', p)
    case DeliverPrepare(a, m) => DeliverPrepareStep(s, s', a, m)
    case DeliverPropose(a, m) => DeliverProposeStep(s, s', a, m)
    case DeliverLearn(l, d, now) => DeliverLearnStep(c, s, s', l, d, now)
    case Flush(l, dead) => FlushStep(s, s', l, dead)
    case LearnLowest(l, n) => LearnLowestStep(s, s', l, n)
  }

  ghost predicate StepAt(c: Config, states: seq<State>, steps: seq<Step>, i: nat)
    requires i < |steps| < |states|
  {
    Next(c, states[i], states[i + 1], steps[i])
  }

  /** One step between each two consecutive states. */
  ghost predicate IsStretch(c: Config, states: seq<State>, steps: seq<Step>)
  {
    && |states| == |steps| + 1
    && forall i: nat | i < |steps| :: StepAt(c, states, steps, i)
  }

  /** A run starts in an initial state. */
  ghost predicate IsRun(c: Config, states: seq<State>, steps: seq<Step>)
  {
    IsStretch(c, states, steps) && Init(c, states[0])
  }

  /** `propose` was reached only through a successful `prepare`. */
  ghost predicate NoFallThrough(steps: seq<Step>)
  {
    forall i | 0 <= i < |steps| :: !steps[i].FallThrough?
  }

  /** The accepters that accepted `req` under number `n`. */
  ghost function AcceptersOf(c: Config, net: set<Message>, n: nat, req: Request): set<nat>
  {
    set a | a in c.accepters && exists r :: Accepted(r, a, n, req) in net
  }

  ghost predicate Chosen(c: Config, net: set<Message>, n: nat, req: Request)
  {
    |AcceptersOf(c, net, n, req)| >= c.Majority()
  }

  ghost predicate OneRequestPerNumber(net: set<Message>)
  {
    forall r, r', n, x, y, k, k' :: Propose(r, n, x, k) in net && Propose(r', n, y, k') in net ==> x == y
  }

  lemma RunPrefix(c: Config, states: seq<State>, steps: seq<Step>)
    requires IsRun(c, states, steps) && steps != []
    ensures IsRun(c, states[..|steps|], steps[..|steps| - 1])
    ensures Next(c, states[|steps| - 1], states[|steps|], steps[|steps| - 1])
    ensures NoFallThrough(steps) ==> NoFallThrough(steps[..|steps| - 1])
  {
    RunTo(c, states, steps, |steps| - 1);
    assert StepAt(c, states, steps, |steps| - 1);
  }

  /** Every initial part of a run is a run. */
  lemma RunTo(c: Config, states: seq<State>, steps: seq<Step>, k: nat)
    requires IsRun(c, states, steps) && k <= |steps|
    ensures IsRun(c, states[..k + 1], steps[..k])
  {
    var before, done := states[..k + 1], steps[..k];
    forall i: nat | i < |done| ensures StepAt(c, before, done, i) {
      assert StepAt(c, states, steps, i);
    }
  }
}
