/** Exactly which memberships make learners agree in every run, the fall-through included; and that
    agreement is about something: clean runs do learn. */
module PaxosAgreement {
  import opened SetSizes
  import opened PaxosRoles
  import opened PaxosProtocol
  import opened PaxosSafety
  import opened PaxosLearning
  import opened PaxosRuns
  import opened PaxosDisagreement

  /** No two learners, nor one learner twice, executed different requests under a number. */
  ghost predicate Agreed(s: State)
  {
    forall l, k, n, x, y | l in s.learners && k in s.learners ::
      (n, x) in s.learners[l].learned && (n, y) in s.learners[k].learned ==> x == y
  }

  // ----- one accepter -----

  /** What is learned was accepted by somebody. */
  lemma LearnedWasAccepted(c: Config, s: State, l: nat, n: nat, x: Request) returns (a: nat)
    requires Inv(c, s) && LearnInv(c, s) && l in s.learners && (n, x) in s.learners[l].learned
    ensures a in c.accepters && WasAccepted(s.net, a, n, x)
  {
    assert EntriesOk(c, s.learners[l]);
    var d :| d in s.learners[l].heard && d.num == n && d.req == x;
    a := d.from;
    var r :| Accepted(r, a, n, x) in s.net;
  }

  /** A single accepter accepts one request per number. */
  lemma OneAccepterAgrees(c: Config, s: State)
    requires |c.accepters| == 1 && Inv(c, s) && LearnInv(c, s)
    ensures Agreed(s)
  {
    forall l, k, n, x, y | l in s.learners && k in s.learners
      && (n, x) in s.learners[l].learned && (n, y) in s.learners[k].learned
      ensures x == y
    {
      var a := LearnedWasAccepted(c, s, l, n, x);
      var b := LearnedWasAccepted(c, s, k, n, y);
      Singleton(c.accepters, a, b);
      var r :| Accepted(r, a, n, x) in s.net;
      var r' :| Accepted(r', b, n, y) in s.net;
    }
  }

  lemma Singleton<T>(s: set<T>, a: T, b: T)
    requires |s| <= 1 && a in s && b in s
    ensures a == b
  {
    if a != b {
      SubsetSize({a, b}, s);
    }
  }

  // ----- one learner -----

  lemma {:induction false} TimesTwo(learned: seq<(nat, Request)>, n: nat, x: Request, y: Request)
    requires (n, x) in learned && (n, y) in learned && Times(learned, n) <= 1
    ensures x == y
  {
    var k := |learned| - 1;
    var init := learned[..k];
    assert learned == init + [learned[k]];
    if learned[k].0 == n {
      assert (n, x) in init ==> Times(init, n) >= 1 by {
        if (n, x) in init {
          TimesPositive(init, n, x);
        }
      }
      assert (n, y) in init ==> Times(init, n) >= 1 by {
        if (n, y) in init {
          TimesPositive(init, n, y);
        }
      }
    } else {
      TimesTwo(init, n, x, y);
    }
  }

  lemma OneLearnerAgrees(c: Config, states: seq<State>, steps: seq<Step>)
    requires c.Valid() && IsRun(c, states, steps) && |c.learners| <= 1
    ensures Agreed(states[|steps|])
  {
    RunInv(c, states, steps);
    var s := states[|steps|];
    forall l, k, n, x, y | l in s.learners && k in s.learners
      && (n, x) in s.learners[l].learned && (n, y) in s.learners[k].learned
      ensures x == y
    {
      Singleton(c.learners, l, k);
      LearnedAtMostOnce(c, states, steps, l, n);
      TimesTwo(s.learners[l].learned, n, x, y);
    }
  }

  // ----- one proposer -----

  /** A proposer's number is above every number it has proposed, but for a call still out. */
  ghost predicate Ahead(s: State, p: nat)
    requires p in s.proposers
  {
    forall r, n: nat, x, k | Propose(r, n, x, k) in s.net ::
      n < Number(s, p) || (n == Number(s, p) && PhaseOf(s, p).Proposing? && PhaseOf(s, p).req == x)
  }

  /** With a single proposer all PROPOSEs are its own, and no two share a number. */
  ghost predicate LoneInv(c: Config, s: State)
  {
    && s.proposers.Keys == c.proposers && OneRequestPerNumber(s.net)
    && (forall p | p in s.proposers :: Ahead(s, p))
    && (s.proposers == map[] ==> forall r, n, x, k :: Propose(r, n, x, k) !in s.net)
  }

  lemma LoneSend(c: Config, s: State, s': State, p: nat)
    requires |c.proposers| <= 1 && LoneInv(c, s) && SendProposeStep(s, s', p)
    ensures LoneInv(c, s')
  {
    assert Ahead(s, p);
    forall q | q in s'.proposers ensures Ahead(s', q) {
      Singleton(c.proposers, p, q);
    }
  }

  /** Numbers only grow, and grow past the proposed one when a `propose` ends. */
  lemma NumbersGrow(c: Config, s: State, s': State, step: Step)
    requires Next(c, s, s', step) && !step.SendPropose?
    ensures s'.proposers.Keys == s.proposers.Keys
    ensures forall p | p in s.proposers ::
        s'.proposers[p] == s.proposers[p]
        || (Number(s', p) >= Number(s, p) && !PhaseOf(s, p).Proposing?)
        || Number(s', p) > Number(s, p)
  {
  }

  lemma LoneOther(c: Config, s: State, s': State, step: Step)
    requires |c.proposers| <= 1 && LoneInv(c, s) && Next(c, s, s', step) && !step.SendPropose?
    ensures LoneInv(c, s')
  {
    OnlySendProposes(c, s, s', step);
    NumbersGrow(c, s, s', step);
    forall p | p in s'.proposers ensures Ahead(s', p) {
      assert Ahead(s, p);
    }
  }

  lemma {:induction false} LoneRun(c: Config, states: seq<State>, steps: seq<Step>)
    requires |c.proposers| <= 1 && IsRun(c, states, steps)
    ensures LoneInv(c, states[|steps|])
    decreases |steps|
  {
    if steps != [] {
      RunPrefix(c, states, steps);
      var n := |steps| - 1;
      LoneRun(c, states[..|steps|], steps[..n]);
      if steps[n].SendPropose? {
        LoneSend(c, states[n], states[n + 1], steps[n].p);
      } else {
        LoneOther(c, states[n], states[n + 1], steps[n]);
      }
    }
  }

  lemma OneProposerAgrees(c: Config, states: seq<State>, steps: seq<Step>)
    requires c.Valid() && IsRun(c, states, steps) && |c.proposers| <= 1
    ensures Agreed(states[|steps|])
  {
    LoneRun(c, states, steps);
    var s := states[|steps|];
    forall l, k, n, x, y | l in s.learners && k in s.learners
      && (n, x) in s.learners[l].learned && (n, y) in s.learners[k].learned
      ensures x == y
    {
      LearnersAgree(c, states, steps, l, k, n, x, y);
    }
  }

  // ----- exactly which memberships -----

  predicate TooSmallToDisagree(c: Config)
  {
    |c.accepters| < 2 || |c.learners| < 2 || |c.proposers| < 2
  }

  lemma SmallAgrees(c: Config, s: State)
    requires c.Valid() && Reachable(c, s, false) && TooSmallToDisagree(c)
    ensures Agreed(s)
  {
    var states, steps :| IsRun(c, states, steps) && states[|steps|] == s;
    if |c.proposers| < 2 {
      OneProposerAgrees(c, states, steps);
    } else if |c.learners| < 2 {
      OneLearnerAgrees(c, states, steps);
    } else {
      RunLearn(c, states, steps);
      OneAccepterAgrees(c, s);
    }
  }

  lemma TwoOf(s: set<nat>) returns (a: nat, b: nat)
    requires |s| >= 2
    ensures a in s && b in s && a != b
  {
    a :| a in s;
    assert |s - {a}| > 0;
    b :| b in s - {a};
  }

  lemma LargeDisagrees(c: Config, x: Request, y: Request) returns (s: State)
    requires x != y && !TooSmallToDisagree(c)
    ensures Reachable(c, s, false) && !Agreed(s)
  {
    var a, b := TwoOf(c.accepters);
    var p, q := TwoOf(c.proposers);
    var l, k := TwoOf(c.learners);
    s := LearnersCanDisagree(c, p, q, a, b, l, k, x, y);
    assert (BOW_OUT, x) in s.learners[l].learned && (BOW_OUT, y) in s.learners[k].learned;
  }

  /** Learners agree in every run, fall-through or not, exactly when some role has fewer than two
      members. */
  lemma AgreementExactly(c: Config)
    requires c.Valid()
    ensures (forall s | Reachable(c, s, false) :: Agreed(s)) <==> TooSmallToDisagree(c)
  {
    if TooSmallToDisagree(c) {
      forall s | Reachable(c, s, false) ensures Agreed(s) {
        SmallAgrees(c, s);
      }
    } else {
      var s := LargeDisagrees(c, Request("a", [], "", 0), Request("b", [], "", 0));
    }
  }

  // ----- clean runs learn -----

  /** A proposer whose first number is lost and whose second is promised, proposed and accepted. */
  lemma ProposeCleanly(c: Config, s: State, p: nat, x: Request) returns (s': State, m: Message)
    requires c.Valid() && Reachable(c, s, true) && s.accepters.Keys == c.accepters
    requires p in s.proposers && s.proposers[p] == ProposerState(0, Idle)
    requires forall a | a in s.accepters :: s.accepters[a] == AccepterState(0, 0)
    ensures Reachable(c, s', true) && s'.learners == s.learners && s'.accepters.Keys == c.accepters
    ensures m in s'.net && m.Propose? && m.num == 1 && m.req == x
    ensures forall a | a in s'.accepters :: s'.accepters[a] == AccepterState(1, 0)
  {
    var s1 := DoBegin(c, s, p, x, true);
    var s2 := LoseRound(c, s1, p, true);
    s', m := PrepareAndPropose(c, s2, p);
  }

  lemma PrepareAndPropose(c: Config, s: State, p: nat) returns (s': State, m: Message)
    requires c.Valid() && Reachable(c, s, true) && s.accepters.Keys == c.accepters
    requires p in s.proposers && PhaseOf(s, p).ReadyToPrepare?
    requires forall a | a in s.accepters :: s.accepters[a] == AccepterState(0, 0) && Number(s, p) > 0
    ensures Reachable(c, s', true) && s'.learners == s.learners && s'.accepters.Keys == c.accepters
    ensures m in s'.net && m.Propose? && m.num == Number(s, p) && m.req == PhaseOf(s, p).req
    ensures forall a | a in s'.accepters :: s'.accepters[a] == AccepterState(m.num, 0)
  {
    var s1 := DoSendPrepare(c, s, p, true);
    var s2 := AllPromise(c, s1, Prepare(s.nextRound, Number(s, p), PhaseOf(s, p).req), c.accepters, true);
    s', m := ReadPromises(c, s2, p, true);
  }

  /** For every membership with a proposer and a learner and every request there is a clean run in which
      the learner executes the request. */
  lemma CleanRunsLearn(c: Config, p: nat, l: nat, x: Request) returns (s: State)
    requires c.Valid() && p in c.proposers && l in c.learners
    ensures Reachable(c, s, true) && l in s.learners && s.learners[l].learned == [(1, x)]
  {
    var s0 := Start(c, true);
    var s1, m := ProposeCleanly(c, s0, p, x);
    var s2 := AllAccept(c, s1, m, c.accepters, true);
    var first :| first in c.accepters;
    s := HearAll(c, s2, l, 1, first, _ => x, true);
  }
}
