/** Stretches of a run in which one proposer is left alone: what it hears there, how often it fails, and
    the verdict it ends with. */
module PaxosSolo {
  import opened PaxosRoles
  import opened PaxosProtocol
  import opened PaxosRuns
  import opened PaxosProgress

  /** A step of the proposer's retry loop, or an accepter's answer. */
  predicate IsSolo(step: Step, p: nat)
  {
    match step
    case Begin(_, _) | Stop(_) => false
    case DeliverPrepare(_, _) | DeliverPropose(_, _) => true
    case DeliverLearn(_, _, _) | Flush(_, _) | LearnLowest(_, _) => false
    case _ => step.p == p
  }

  /** Nobody but `p` and the accepters moves, and `p` works on one request throughout. */
  predicate Alone(steps: seq<Step>, p: nat)
  {
    forall i | 0 <= i < |steps| :: IsSolo(steps[i], p)
  }

  /** Whose replies a step reads: one entry if it ends a call, none otherwise. */
  function HeardIn(step: Step): seq<set<nat>>
  {
    match step
    case PrepareOk(_, replies) => [replies.Keys]
    case PrepareRetry(_, replies, _) => [replies.Keys]
    case FallThrough(_, replies, _) => [replies.Keys]
    case ProposeDone(_, replies, _) => [replies.Keys]
    case _ => []
  }

  /** Whose replies are read, call after call. */
  function Heard(steps: seq<Step>): seq<set<nat>>
  {
    if steps == [] then [] else Heard(steps[..|steps| - 1]) + HeardIn(steps[|steps| - 1])
  }

  /** The step ends a `propose` that a quorum accepted. */
  ghost predicate Accepts(c: Config, step: Step)
  {
    step.ProposeDone? && |Accepters(step.replies)| >= c.Majority()
  }

  /** The step ends a call that failed. */
  ghost predicate Fails(c: Config, step: Step)
  {
    step.PrepareRetry? || step.FallThrough? || (step.ProposeDone? && !Accepts(c, step))
  }

  ghost function Failures(c: Config, steps: seq<Step>): nat
  {
    if steps == [] then 0
    else Failures(c, steps[..|steps| - 1]) + if Fails(c, steps[|steps| - 1]) then 1 else 0
  }

  /** How the request ends. */
  ghost function Verdict(c: Config, steps: seq<Step>): Outcome
    requires steps != []
  {
    Outcome(Accepts(c, steps[|steps| - 1]), Failures(c, steps))
  }

  lemma OneStep(c: Config, step: Step)
    ensures Heard([step]) == HeardIn(step) && Failures(c, [step]) == if Fails(c, step) then 1 else 0
  {
    assert [step][..0] == [];
  }

  lemma {:induction false} HeardBoth(steps: seq<Step>, steps': seq<Step>)
    ensures Heard(steps + steps') == Heard(steps) + Heard(steps')
  {
    if steps' == [] {
      assert steps + steps' == steps;
    } else {
      var k := |steps'| - 1;
      assert (steps + steps')[..|steps| + k] == steps + steps'[..k];
      HeardBoth(steps, steps'[..k]);
    }
  }

  lemma {:induction false} FailuresBoth(c: Config, steps: seq<Step>, steps': seq<Step>)
    ensures Failures(c, steps + steps') == Failures(c, steps) + Failures(c, steps')
  {
    if steps' == [] {
      assert steps + steps' == steps;
    } else {
      var k := |steps'| - 1;
      assert (steps + steps')[..|steps| + k] == steps + steps'[..k];
      FailuresBoth(c, steps, steps'[..k]);
    }
  }

  /** From `s`, `p` alone gets to `s'`, hearing the given replies and failing that often. */
  ghost predicate Does(
    c: Config, s: State, s': State, p: nat, steps: seq<Step>, heard: seq<set<nat>>, failures: nat)
  {
    Leads(c, s, s', steps) && Alone(steps, p) && Heard(steps) == heard && Failures(c, steps) == failures
  }

  lemma DoesNothing(c: Config, s: State, p: nat)
    ensures Does(c, s, s, p, [], [], 0)
  {
    LeadsNowhere(c, s);
  }

  lemma DoesOne(c: Config, s: State, s': State, p: nat, step: Step)
    requires Leads(c, s, s', [step]) && IsSolo(step, p)
    ensures Does(c, s, s', p, [step], HeardIn(step), if Fails(c, step) then 1 else 0)
  {
    OneStep(c, step);
  }

  lemma DoesMore(
    c: Config, s: State, s': State, s'': State, p: nat, steps: seq<Step>, heard: seq<set<nat>>, failures: nat,
    steps': seq<Step>, heard': seq<set<nat>>, failures': nat)
    requires Does(c, s, s', p, steps, heard, failures) && Does(c, s', s'', p, steps', heard', failures')
    ensures Does(c, s, s'', p, steps + steps', heard + heard', failures + failures')
  {
    LeadsOn(c, s, s', s'', steps, steps');
    HeardBoth(steps, steps');
    FailuresBoth(c, steps, steps');
  }

  function AnswerStep(m: Message, a: nat): Step
  {
    if m.Prepare? then DeliverPrepare(a, m) else DeliverPropose(a, m)
  }

  /** The first `k` accepters answer `m`. */
  function AllAnswer(m: Message, k: nat): (r: seq<Step>)
    ensures |r| == k && forall i | 0 <= i < k :: r[i] == AnswerStep(m, i)
  {
    if k == 0 then [] else AllAnswer(m, k - 1) + [AnswerStep(m, k - 1)]
  }

  /** No step reads replies. */
  ghost predicate Quiet(steps: seq<Step>)
  {
    forall i | 0 <= i < |steps| :: steps[i].DeliverPrepare? || steps[i].DeliverPropose?
  }

  lemma {:induction false} QuietHearsNothing(c: Config, steps: seq<Step>)
    requires Quiet(steps)
    ensures Heard(steps) == [] && Failures(c, steps) == 0
  {
    if steps != [] {
      QuietHearsNothing(c, steps[..|steps| - 1]);
    }
  }

  lemma DoesAnswers(c: Config, s: State, s': State, p: nat, m: Message, k: nat)
    requires Leads(c, s, s', AllAnswer(m, k))
    ensures Does(c, s, s', p, AllAnswer(m, k), [], 0)
  {
    QuietHearsNothing(c, AllAnswer(m, k));
  }

  /** A call's request and the accepters' answers to it. */
  lemma DoesCall(c: Config, s: State, s': State, s'': State, p: nat, send: Step, m: Message, k: nat)
    requires Leads(c, s, s', [send]) && (send == SendPrepare(p) || send == SendPropose(p))
    requires Leads(c, s', s'', AllAnswer(m, k))
    ensures Does(c, s, s'', p, [send] + AllAnswer(m, k), [], 0)
  {
    DoesOne(c, s, s', p, send);
    DoesAnswers(c, s', s'', p, m, k);
    DoesMore(c, s, s', s'', p, [send], [], 0, AllAnswer(m, k), [], 0);
  }

  /** A call up to the step that reads the replies. */
  lemma DoesRead(
    c: Config, s: State, s': State, s'': State, p: nat, call: seq<Step>, step: Step, read: set<nat>, failures: nat)
    requires Does(c, s, s', p, call, [], 0) && Leads(c, s', s'', [step]) && IsSolo(step, p)
    requires HeardIn(step) == [read] && failures == if Fails(c, step) then 1 else 0
    ensures Does(c, s, s'', p, call + [step], [read], failures)
  {
    DoesOne(c, s', s'', p, step);
    DoesMore(c, s, s', s'', p, call, [], 0, [step], [read], failures);
  }

  /** The replies of `k` successive rounds, from round `from` on. */
  ghost function Rounds(hears: nat -> set<nat>, from: nat, k: nat): (r: seq<set<nat>>)
    ensures |r| == k && forall i | 0 <= i < k :: r[i] == hears(from + i)
  {
    seq(k, i requires 0 <= i < k => hears(from + i))
  }

  lemma RoundsBoth(hears: nat -> set<nat>, from: nat, k: nat, k': nat)
    ensures Rounds(hears, from, k) + Rounds(hears, from + k, k') == Rounds(hears, from, k + k')
  {
  }
}
