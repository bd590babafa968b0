/** Exactly which memberships serve every request of a proposer left alone, from every reachable state and
    whichever quorum of replies each round hears. */
module PaxosServing {
  import opened PaxosRoles
  import opened PaxosProtocol
  import opened PaxosRuns
  import opened PaxosAgreement
  import opened PaxosProgress
  import opened PaxosExhaustion
  import opened PaxosSolo
  import opened PaxosRounds
  import opened PaxosLiveness

  // ----- a run that leaves the promises of a staircase behind -----

  /** What an accepter has promised once the first `k` steps of the staircase are laid. */
  ghost function Laid(c: Config, k: nat, i: nat): AccepterState
  {
    AccepterState(if c.Majority() <= i < c.Majority() + k then i - c.Majority() + 1 else 0, 0)
  }

  ghost predicate AllLaid(c: Config, k: nat, acc: map<nat, AccepterState>)
  {
    forall i | i in acc :: acc[i] == Laid(c, k, i)
  }

  /** The proposer `q` has laid `k` steps and given up its requests; all others are untouched. */
  ghost predicate Climbed(c: Config, s: State, q: nat, k: nat)
  {
    && s.accepters.Keys == c.accepters && AllLaid(c, k, s.accepters)
    && s.proposers.Keys == c.proposers && q in s.proposers && s.proposers[q] == ProposerState(k + 1, Idle)
    && (forall p | p in s.proposers && p != q :: s.proposers[p] == ProposerState(0, Idle))
  }

  /** A request given up after its first PREPARE, whose replies are lost: the number goes up by one. */
  lemma GiveUp(c: Config, s: State, q: nat) returns (s': State)
    requires c.Valid() && Reachable(c, s, false) && q in s.proposers
    requires PhaseOf(s, q).Preparing? && PhaseOf(s, q).bowOut == 1
    ensures Reachable(c, s', false) && OnlyMoved(s, s', q) && s'.proposers[q] == ProposerState(Number(s, q) + 1, Idle)
  {
    var s1 := LoseReplies(c, s, q, false);
    s' := DoStop(c, s1, q, false);
    MovedTwice(s, s1, s', q);
  }

  lemma Ask(c: Config, s: State, q: nat, req: Request) returns (s': State, m: Message)
    requires Reachable(c, s, false) && q in s.proposers && PhaseOf(s, q).Idle?
    ensures Reachable(c, s', false) && OnlyMoved(s, s', q) && m in s'.net && m.Prepare? && m.num == Number(s, q)
    ensures s'.proposers[q] == ProposerState(Number(s, q), Preparing(m.round, req, 1))
  {
    var s1 := DoBegin(c, s, q, req, false);
    s' := DoSendPrepare(c, s1, q, false);
    m := Prepare(s1.nextRound, Number(s, q), req);
    MovedTwice(s, s1, s', q);
  }

  /** The proposer's PREPARE for number `n` is out; no other proposer has done anything. */
  ghost predicate Asked(c: Config, s: State, q: nat, n: nat, m: Message)
  {
    && m in s.net && m.Prepare? && m.num == n
    && s.proposers.Keys == c.proposers && q in s.proposers && Number(s, q) == n
    && PhaseOf(s, q).Preparing? && PhaseOf(s, q).bowOut == 1
    && (forall p | p in s.proposers && p != q :: s.proposers[p] == ProposerState(0, Idle))
  }

  lemma AskNext(c: Config, s: State, q: nat, k: nat, req: Request) returns (s': State, m: Message)
    requires 0 < k && Reachable(c, s, false) && Climbed(c, s, q, k - 1)
    ensures Reachable(c, s', false) && s'.accepters == s.accepters && Asked(c, s', q, k, m)
  {
    s', m := Ask(c, s, q, req);
  }

  /** The PREPARE reaches one accepter only. */
  lemma LayOne(c: Config, s: State, q: nat, k: nat, m: Message) returns (s': State)
    requires 0 < k && Reachable(c, s, false) && Asked(c, s, q, k, m) && c.Majority() + k - 1 in s.accepters
    requires AllLaid(c, k - 1, s.accepters)
    ensures Reachable(c, s', false) && Asked(c, s', q, k, m) && s'.accepters.Keys == s.accepters.Keys
    ensures AllLaid(c, k, s'.accepters)
  {
    s' := DoDeliverPrepare(c, s, c.Majority() + k - 1, m, false);
    LaidMore(c, k, m, s.accepters, s'.accepters);
  }

  lemma LaidMore(
    c: Config, k: nat, m: Message, acc: map<nat, AccepterState>, acc': map<nat, AccepterState>)
    requires 0 < k && m.Prepare? && m.num == k && c.Majority() + k - 1 in acc && AllLaid(c, k - 1, acc)
    requires var a := c.Majority() + k - 1; acc' == acc[a := HandlePrepare(acc[a], a, m).0]
    ensures acc'.Keys == acc.Keys && AllLaid(c, k, acc')
  {
  }

  lemma GiveUpNext(c: Config, s: State, q: nat, k: nat, m: Message) returns (s': State)
    requires c.Valid() && Reachable(c, s, false) && Asked(c, s, q, k, m) && s.accepters.Keys == c.accepters
    requires AllLaid(c, k, s.accepters)
    ensures Reachable(c, s', false) && Climbed(c, s', q, k)
  {
    s' := GiveUp(c, s, q);
    GivenUp(c, s, s', q, k, m);
  }

  lemma GivenUp(c: Config, s: State, s': State, q: nat, k: nat, m: Message)
    requires Asked(c, s, q, k, m) && s.accepters.Keys == c.accepters && OnlyMoved(s, s', q)
    requires AllLaid(c, k, s.accepters)
    requires s'.proposers[q] == ProposerState(k + 1, Idle)
    ensures Climbed(c, s', q, k)
  {
  }

  lemma AskedFirst(c: Config, s: State, s': State, q: nat, m: Message)
    requires Init(c, s) && q in c.proposers && OnlyMoved(s, s', q) && m in s'.net && m.Prepare? && m.num == 0
    requires Number(s', q) == 0 && PhaseOf(s', q).Preparing? && PhaseOf(s', q).bowOut == 1
    ensures Asked(c, s', q, 0, m) && s'.accepters.Keys == c.accepters
    ensures AllLaid(c, 0, s'.accepters)
  {
  }

  lemma FirstStep(c: Config, q: nat, req: Request) returns (s: State)
    requires c.Valid() && q in c.proposers
    ensures Reachable(c, s, false) && Climbed(c, s, q, 0)
  {
    var s0 := Start(c, false);
    var s1, m := Ask(c, s0, q, req);
    AskedFirst(c, s0, s1, q, m);
    s := GiveUpNext(c, s1, q, 0, m);
  }

  lemma NextStep(c: Config, s: State, q: nat, k: nat, req: Request) returns (s': State)
    requires 0 < k && Reachable(c, s, false) && Climbed(c, s, q, k - 1) && c.Majority() + k - 1 in c.accepters
    ensures Reachable(c, s', false) && Climbed(c, s', q, k)
  {
    var s1, m := AskNext(c, s, q, k, req);
    var s2 := LayOne(c, s1, q, k, m);
    s' := GiveUpNext(c, s2, q, k, m);
  }

  lemma {:induction false} Climb(c: Config, q: nat, k: nat, req: Request) returns (s: State)
    requires c.Valid() && q in c.proposers && forall a: nat | a < c.Majority() + k :: a in c.accepters
    ensures Reachable(c, s, false) && Climbed(c, s, q, k)
  {
    if k == 0 {
      s := FirstStep(c, q, req);
    } else {
      assert c.Majority() + k - 1 in c.accepters;
      var s1 := Climb(c, q, k - 1, req);
      s := NextStep(c, s1, q, k, req);
    }
  }

  /** With two proposers every staircase is what some run leaves behind. */
  lemma StaircaseReachable(c: Config, p: nat, q: nat, req: Request) returns (s: State)
    requires Named(c) && p in c.proposers && q in c.proposers && p != q
    ensures Reachable(c, s, false) && p in s.proposers && s.proposers[p] == ProposerState(0, Idle)
    ensures Matches(c, s, Staircase(|c.accepters|, 0))
  {
    var n := |c.accepters|;
    assert 0 in c.accepters;
    s := Climb(c, q, n - c.Majority(), req);
    forall i: nat | i < n ensures i in s.accepters && s.accepters[i] == Staircase(n, 0)[i] {
      assert i in c.accepters && Staircase(n, 0)[i] == Stair(n, 0, i);
    }
  }

  /** With 103 accepters or more and a second proposer, some run leaves promises behind on which the lone
      proposer, hearing the wrong quorums, gives its request up. */
  lemma LargeMembershipGivesUp(c: Config, p: nat, q: nat, req: Request)
    returns (s: State, hears: nat -> set<nat>, s1: State, s': State, steps: seq<Step>)
    requires Named(c) && |c.accepters| > 102 && p in c.proposers && q in c.proposers && p != q
    ensures Reachable(c, s, false) && p in s.proposers && PhaseOf(s, p).Idle? && Delivers(hears, |c.accepters|)
    ensures s.accepters.Keys == c.accepters && LoopFrom(c, s, p, hears, req).Ready()
    ensures !Retry(LoopFrom(c, s, p, hears, req)).accepted
    ensures Next(c, s, s1, Begin(p, req)) && Leads(c, s1, s', steps) && Alone(steps, p)
    ensures Heard(steps) == Rounds(hears, 0, |Heard(steps)|)
    ensures p in s'.proposers && PhaseOf(s', p).Idle? && steps != [] && !Accepts(c, steps[|steps| - 1])
  {
    s := StaircaseReachable(c, p, q, req);
    SmallEnough(|c.accepters|);
    var at := LargeMembershipCanFail(|c.accepters|, req);
    hears := at.hears;
    LoopIsReady(c, s, p, hears, req);
    SameLoop(c, s, p, at);
    s1, s', steps := RequestIsRun(c, s, p, hears, req);
  }

  lemma SameLoop(c: Config, s: State, p: nat, at: Loop)
    requires Named(c) && s.accepters.Keys == c.accepters && p in s.proposers && Matches(c, s, at.acc)
    requires at.number == Number(s, p) && at.bowOut == 1 && at.round == 0
    ensures LoopFrom(c, s, p, at.hears, at.req) == at
  {
    assert LoopFrom(c, s, p, at.hears, at.req).acc == at.acc;
  }

  // ----- a single proposer -----

  /** No promise, and no PREPARE still about, is above the only proposer's number. */
  ghost predicate Leading(s: State)
  {
    forall p | p in s.proposers ::
      && (forall a | a in s.accepters :: s.accepters[a].promised <= Number(s, p))
      && (forall r, n: nat, x | Prepare(r, n, x) in s.net :: n <= Number(s, p))
  }

  lemma LeadingSend(c: Config, s: State, s': State, p: nat)
    requires |c.proposers| <= 1 && s.proposers.Keys == c.proposers && Leading(s) && SendPrepareStep(s, s', p)
    ensures s'.proposers.Keys == c.proposers && Leading(s')
  {
    forall q | q in s'.proposers ensures q == p {
      Singleton(c.proposers, q, p);
    }
  }

  /** Only a PREPARE sent before raises a promise. */
  lemma LeadingOther(c: Config, s: State, s': State, step: Step)
    requires Leading(s) && Next(c, s, s', step) && !step.SendPrepare?
    ensures s'.proposers.Keys == s.proposers.Keys && Leading(s')
  {
    NumbersKept(c, s, s', step);
    PromisesFromPrepares(c, s, s', step);
  }

  lemma NumbersKept(c: Config, s: State, s': State, step: Step)
    requires Next(c, s, s', step)
    ensures s'.proposers.Keys == s.proposers.Keys
    ensures forall p | p in s.proposers :: Number(s', p) >= Number(s, p)
  {
    if !step.SendPropose? {
      NumbersGrow(c, s, s', step);
    }
  }

  lemma PromisesFromPrepares(c: Config, s: State, s': State, step: Step)
    requires Next(c, s, s', step) && !step.SendPrepare?
    ensures forall r, n: nat, x | Prepare(r, n, x) in s'.net :: Prepare(r, n, x) in s.net
    ensures s'.accepters.Keys == s.accepters.Keys
    ensures forall a | a in s.accepters && s'.accepters[a].promised != s.accepters[a].promised ::
        exists r, x :: Prepare(r, s'.accepters[a].promised, x) in s.net
  {
    if step.DeliverPrepare? {
      assert Prepare(step.m.round, step.m.num, step.m.req) in s.net;
    }
  }

  lemma LeadingStep(c: Config, s: State, s': State, step: Step)
    requires |c.proposers| <= 1 && s.proposers.Keys == c.proposers && Leading(s) && Next(c, s, s', step)
    ensures s'.proposers.Keys == c.proposers && Leading(s')
  {
    if step.SendPrepare? {
      LeadingSend(c, s, s', step.p);
    } else {
      LeadingOther(c, s, s', step);
    }
  }

  lemma {:induction false} LeadingRun(c: Config, states: seq<State>, steps: seq<Step>)
    requires |c.proposers| <= 1 && IsRun(c, states, steps)
    ensures states[|steps|].proposers.Keys == c.proposers && Leading(states[|steps|])
    decreases |steps|
  {
    if steps != [] {
      RunPrefix(c, states, steps);
      var n := |steps| - 1;
      LeadingRun(c, states[..|steps|], steps[..n]);
      LeadingStep(c, states[n], states[n + 1], steps[n]);
    }
  }

  /** A proposer nobody is above succeeds at the second attempt at the latest, however many accepters. */
  lemma LeaderSucceeds(at: Loop)
    requires at.Ready() && at.bowOut == 1 && forall i | 0 <= i < |at.acc| :: at.acc[i].promised <= at.number
    ensures Succeeds(at, 1)
  {
    var p := at.Prepared();
    if !p.ok {
      UnpreparedShrinks(at);
      assert AtOrAbove(p.acc, p.number) == {};
      OvertakesAll(at.Unprepared(p), 0);
      SucceedsAfterPrepare(at, 0);
    } else {
      var q := at.Proposed(p);
      if !q.ok {
        RefusedShrinks(at);
        assert AtOrAbove(q.acc, q.number) == {};
        OvertakesAll(at.Refused(q), 0);
        SucceedsAfterPropose(at, 0);
      } else {
        SucceedsAtOnce(at, 1);
      }
    }
  }

  lemma OnlyProposerLeads(c: Config, s: State)
    requires |c.proposers| <= 1 && Reachable(c, s, false)
    ensures Leading(s)
  {
    var states, steps :| IsRun(c, states, steps) && states[|steps|] == s;
    LeadingRun(c, states, steps);
  }

  lemma LeaderServed(c: Config, s: State, p: nat, hears: nat -> set<nat>, req: Request)
    requires Named(c) && Leading(s) && p in s.proposers && s.accepters.Keys == c.accepters
    requires LoopFrom(c, s, p, hears, req).Ready()
    ensures Served(c, s, p, hears, req)
  {
    var at := LoopFrom(c, s, p, hears, req);
    LeaderSucceeds(at);
    assert Comes(at, Retry(at));
  }

  lemma OnlyProposerServed(c: Config, s: State, p: nat, hears: nat -> set<nat>, req: Request)
    requires Named(c) && |c.proposers| <= 1 && Reachable(c, s, false) && p in s.proposers
    requires Delivers(hears, |c.accepters|)
    ensures Served(c, s, p, hears, req)
  {
    LoopIsReady(c, s, p, hears, req);
    OnlyProposerLeads(c, s);
    LeaderServed(c, s, p, hears, req);
  }

  // ----- the exact condition -----

  /** The request's loop, started in this state, ends accepted. */
  ghost predicate Served(c: Config, s: State, p: nat, hears: nat -> set<nat>, req: Request)
    requires Named(c)
  {
    && s.accepters.Keys == c.accepters && p in s.proposers && LoopFrom(c, s, p, hears, req).Ready()
    && Retry(LoopFrom(c, s, p, hears, req)).accepted
  }

  /** Every request is served, from every reachable state, whichever quorum each round hears. */
  ghost predicate AlwaysServed(c: Config)
    requires Named(c)
  {
    forall s, p, hears, req | Reachable(c, s, false) && p in s.proposers && PhaseOf(s, p).Idle?
      && Delivers(hears, |c.accepters|) :: Served(c, s, p, hears, req)
  }

  /** A proposer left alone always gets its request accepted exactly when there are at most 102 accepters
      or no second proposer. */
  lemma ServedExactly(c: Config)
    requires Named(c)
    ensures AlwaysServed(c) <==> |c.accepters| <= 102 || |c.proposers| < 2
  {
    if |c.accepters| > 102 && |c.proposers| >= 2 {
      var p, q := TwoOf(c.proposers);
      var req := Request("", [], "", 0);
      var s, hears, s1, s', steps := LargeMembershipGivesUp(c, p, q, req);
      assert !Served(c, s, p, hears, req);
    } else {
      forall s, p, hears, req | Reachable(c, s, false) && p in s.proposers && PhaseOf(s, p).Idle?
        && Delivers(hears, |c.accepters|)
        ensures Served(c, s, p, hears, req)
      {
        SmallOrOnlyServed(c, s, p, hears, req);
      }
    }
  }

  lemma SmallOrOnlyServed(c: Config, s: State, p: nat, hears: nat -> set<nat>, req: Request)
    requires Named(c) && (|c.accepters| <= 102 || |c.proposers| < 2)
    requires Reachable(c, s, false) && p in s.proposers && Delivers(hears, |c.accepters|)
    ensures Served(c, s, p, hears, req)
  {
    if |c.accepters| <= 102 {
      LoopIsReady(c, s, p, hears, req);
      SmallEnough(|c.accepters|);
      LoneProposerSucceeds(LoopFrom(c, s, p, hears, req));
    } else {
      OnlyProposerServed(c, s, p, hears, req);
    }
  }
}
