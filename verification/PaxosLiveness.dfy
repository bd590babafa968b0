/** The lone proposer's retry loop is a run of the protocol, so from every reachable state a proposer left
    alone with a working network gets its request accepted by a quorum. */
module PaxosLiveness {
  import opened SetSizes
  import opened PaxosRoles
  import opened PaxosProtocol
  import opened PaxosSafety
  import opened PaxosRuns
  import opened PaxosProgress
  import opened PaxosSolo
  import opened PaxosRounds

  // ----- prepare -----

  lemma RunPrepare(c: Config, s: State, p: nat, at: Loop)
    returns (s': State, steps: seq<Step>, replies: map<nat, Message>, highest: nat)
    requires Reachable(c, s, false) && Stands(c, s, p, at) && at.Ready()
    ensures Reachable(c, s', false) && PrepareRead(c, s', p, at, at.Prepared(), replies, highest)
    ensures Does(c, s, s', p, steps, [], 0)
  {
    var m := Prepare(s.nextRound, at.number, at.req);
    var s1 := DoSendPrepare(c, s, p, false);
    s' := AnswerPrepare(c, s1, m, at.acc, |at.acc|);
    steps := [SendPrepare(p)] + AllAnswer(m, |at.acc|);
    DoesCall(c, s, s1, s', p, SendPrepare(p), m, |at.acc|);
    replies, highest := PrepareReadBy(c, s', p, at, m);
  }

  /** The proposer stands before `propose`, after a `prepare` that went as in `pr`. */
  ghost predicate StandsToPropose(c: Config, s: State, p: nat, at: Loop, pr: Round)
  {
    && Matches(c, s, pr.acc) && p in s.proposers && PhaseOf(s, p).ReadyToPropose?
    && Number(s, p) == pr.number && PhaseOf(s, p).req == at.req && PhaseOf(s, p).bowOut == at.RetriesAfter(pr)
  }

  ghost function Failed(r: Round): nat
  {
    if r.ok then 0 else 1
  }

  /** After a `prepare` the loop goes on as `Retry` does. */
  ghost predicate StandsAfter(c: Config, s: State, p: nat, at: Loop, pr: Round)
  {
    if !pr.ok && at.bowOut < BOW_OUT then Stands(c, s, p, at.Unprepared(pr)) else StandsToPropose(c, s, p, at, pr)
  }

  lemma MovedMatches(c: Config, s: State, s': State, p: nat, acc: seq<AccepterState>)
    requires Matches(c, s, acc) && OnlyMoved(s, s', p)
    ensures Matches(c, s', acc)
  {
  }

  /** The step that acts on the replies to a PREPARE. */
  function PrepareEnd(p: nat, at: Loop, pr: Round, replies: map<nat, Message>, highest: nat): Step
  {
    if pr.ok then PrepareOk(p, replies)
    else if at.bowOut < BOW_OUT then PrepareRetry(p, replies, highest)
    else FallThrough(p, replies, highest)
  }

  lemma ActOnPrepare(
    c: Config, s: State, p: nat, at: Loop, pr: Round, replies: map<nat, Message>, highest: nat) returns (s': State)
    requires Reachable(c, s, false) && PrepareRead(c, s, p, at, pr, replies, highest)
    ensures Reachable(c, s', false) && StandsAfter(c, s', p, at, pr)
    ensures Leads(c, s, s', [PrepareEnd(p, at, pr, replies, highest)])
  {
    if pr.ok {
      s' := ActOnPromises(c, s, p, at, pr, replies, highest);
    } else if at.bowOut < BOW_OUT {
      s' := ActOnNacks(c, s, p, at, pr, replies, highest);
    } else {
      s' := ActOnLastNacks(c, s, p, at, pr, replies, highest);
    }
  }

  lemma ReadsPrepare(c: Config, s: State, p: nat, at: Loop, pr: Round, replies: map<nat, Message>, highest: nat)
    requires PrepareRead(c, s, p, at, pr, replies, highest)
    ensures var step := PrepareEnd(p, at, pr, replies, highest);
            IsSolo(step, p) && (Fails(c, step) <==> !pr.ok) && HeardIn(step) == [at.hears(at.round)]
  {
  }

  lemma ActOnPromises(
    c: Config, s: State, p: nat, at: Loop, pr: Round, replies: map<nat, Message>, highest: nat) returns (s': State)
    requires Reachable(c, s, false) && PrepareRead(c, s, p, at, pr, replies, highest) && pr.ok
    ensures Reachable(c, s', false) && StandsToPropose(c, s', p, at, pr)
    ensures Leads(c, s, s', [PrepareOk(p, replies)])
  {
    s' := DoPrepareOk(c, s, p, replies, false);
    MovedMatches(c, s, s', p, pr.acc);
  }

  lemma ActOnLastNacks(
    c: Config, s: State, p: nat, at: Loop, pr: Round, replies: map<nat, Message>, highest: nat) returns (s': State)
    requires Reachable(c, s, false) && PrepareRead(c, s, p, at, pr, replies, highest) && !pr.ok && at.bowOut >= BOW_OUT
    ensures Reachable(c, s', false) && StandsToPropose(c, s', p, at, pr)
    ensures Leads(c, s, s', [FallThrough(p, replies, highest)])
  {
    NacksFail(c, s, p, at, pr, replies, highest);
    s' := DoFallThrough(c, s, p, replies, highest);
    MovedMatches(c, s, s', p, pr.acc);
  }

  lemma ActOnNacks(
    c: Config, s: State, p: nat, at: Loop, pr: Round, replies: map<nat, Message>, highest: nat) returns (s': State)
    requires Reachable(c, s, false) && PrepareRead(c, s, p, at, pr, replies, highest) && !pr.ok && at.bowOut < BOW_OUT
    ensures Reachable(c, s', false) && Stands(c, s', p, at.Unprepared(pr))
    ensures Leads(c, s, s', [PrepareRetry(p, replies, highest)])
  {
    NacksFail(c, s, p, at, pr, replies, highest);
    s' := StandAgain(c, s, p, at, pr, replies, highest);
  }

  lemma StandAgain(
    c: Config, s: State, p: nat, at: Loop, pr: Round, replies: map<nat, Message>, highest: nat) returns (s': State)
    requires Reachable(c, s, false) && Matches(c, s, pr.acc) && PrepareFails(c, s, p, replies, highest)
    requires PhaseOf(s, p).req == at.req && PhaseOf(s, p).bowOut == at.bowOut < BOW_OUT && pr.number == highest + 1
    ensures Reachable(c, s', false) && Stands(c, s', p, at.Unprepared(pr))
    ensures Leads(c, s, s', [PrepareRetry(p, replies, highest)])
  {
    s' := DoRetry(c, s, p, replies, highest, false);
    MovedMatches(c, s, s', p, pr.acc);
    StandsNext(c, s', p, at, pr);
  }

  lemma StandsNext(c: Config, s: State, p: nat, at: Loop, pr: Round)
    requires Matches(c, s, pr.acc) && p in s.proposers
    requires s.proposers[p] == ProposerState(pr.number, ReadyToPrepare(at.req, at.bowOut + 1))
    ensures Stands(c, s, p, at.Unprepared(pr))
  {
  }

  lemma NacksFail(c: Config, s: State, p: nat, at: Loop, pr: Round, replies: map<nat, Message>, highest: nat)
    requires PrepareRead(c, s, p, at, pr, replies, highest) && !pr.ok
    ensures PrepareFails(c, s, p, replies, highest) && PhaseOf(s, p).req == at.req && PhaseOf(s, p).bowOut == at.bowOut
  {
  }

  lemma AfterPrepare(c: Config, s: State, p: nat, at: Loop) returns (s': State, steps: seq<Step>)
    requires Reachable(c, s, false) && Stands(c, s, p, at) && at.Ready()
    ensures Reachable(c, s', false) && StandsAfter(c, s', p, at, at.Prepared())
    ensures Does(c, s, s', p, steps, [at.hears(at.round)], Failed(at.Prepared()))
  {
    var s1, before, replies, highest := RunPrepare(c, s, p, at);
    var step := PrepareEnd(p, at, at.Prepared(), replies, highest);
    s' := ActOnPrepare(c, s1, p, at, at.Prepared(), replies, highest);
    ReadsPrepare(c, s1, p, at, at.Prepared(), replies, highest);
    steps := before + [step];
    DoesRead(c, s, s1, s', p, before, step, at.hears(at.round), Failed(at.Prepared()));
  }

  // ----- propose -----

  lemma RunPropose(c: Config, s: State, p: nat, at: Loop, pr: Round)
    returns (s': State, steps: seq<Step>, m: Message, replies: map<nat, Message>, highest: nat)
    requires Reachable(c, s, false) && StandsToPropose(c, s, p, at, pr)
    requires IsQuorumOf(at.hears(at.round + 1), |pr.acc|)
    ensures Reachable(c, s', false) && m.Propose?
    ensures ProposeRead(c, s', p, at, pr, at.Proposed(pr), m, replies, highest)
    ensures Does(c, s, s', p, steps, [], 0)
  {
    var s1;
    s1, m := DoSendPropose(c, s, p, false);
    s' := AnswerPropose(c, s1, m, pr.acc, |pr.acc|);
    steps := [SendPropose(p)] + AllAnswer(m, |pr.acc|);
    DoesCall(c, s, s1, s', p, SendPropose(p), m, |pr.acc|);
    replies, highest := ProposeReadBy(c, s', p, at, pr, m);
  }

  /** After a `propose` the loop goes on or ends as `Retry` does. */
  ghost predicate StandsDone(c: Config, s: State, p: nat, at: Loop, pr: Round, q: Round)
  {
    if Again(at, pr, q) then Stands(c, s, p, at.Refused(q)) else p in s.proposers && PhaseOf(s, p).Idle?
  }

  predicate Again(at: Loop, pr: Round, q: Round)
  {
    !q.ok && pr.ok && at.bowOut < BOW_OUT
  }

  lemma EndPropose(
    c: Config, s: State, p: nat, at: Loop, pr: Round, q: Round, m: Message, replies: map<nat, Message>, highest: nat)
    returns (s': State)
    requires pr.ok || at.bowOut >= BOW_OUT
    requires m.Propose? && Reachable(c, s, false) && ProposeRead(c, s, p, at, pr, q, m, replies, highest)
    ensures Reachable(c, s', false) && OnlyMoved(s, s', p) && StandsDone(c, s', p, at, pr, q)
    ensures s'.net == s.net && Leads(c, s, s', [ProposeDone(p, replies, highest)])
  {
    s' := DoProposeDone(c, s, p, replies, highest, false);
    MovedMatches(c, s, s', p, q.acc);
    StandsDoneIf(c, s', p, at, pr, q);
  }

  lemma StandsDoneIf(c: Config, s: State, p: nat, at: Loop, pr: Round, q: Round)
    requires Matches(c, s, q.acc) && p in s.proposers && (pr.ok || at.bowOut >= BOW_OUT)
    requires if Again(at, pr, q) then s.proposers[p] == ProposerState(q.number, ReadyToPrepare(at.req, at.bowOut))
             else PhaseOf(s, p).Idle?
    ensures StandsDone(c, s, p, at, pr, q)
  {
  }

  lemma ActOnPropose(
    c: Config, s: State, p: nat, at: Loop, pr: Round, q: Round, m: Message, replies: map<nat, Message>, highest: nat)
    returns (s': State)
    requires pr.ok || at.bowOut >= BOW_OUT
    requires m.Propose? && Reachable(c, s, false) && ProposeRead(c, s, p, at, pr, q, m, replies, highest)
    ensures Reachable(c, s', false) && StandsDone(c, s', p, at, pr, q)
    ensures Leads(c, s, s', [ProposeDone(p, replies, highest)])
    ensures q.ok ==> Chosen(c, s'.net, pr.number, at.req)
  {
    if q.ok {
      ReadChosen(c, s, m.round, m.num, at.req, replies);
    }
    s' := EndPropose(c, s, p, at, pr, q, m, replies, highest);
  }

  /** What the proposer does from sending a PROPOSE to acting on the answers. */
  lemma AfterProposal(c: Config, s: State, p: nat, at: Loop, pr: Round)
    returns (s': State, before: seq<Step>, step: Step)
    requires Reachable(c, s, false) && StandsToPropose(c, s, p, at, pr) && (pr.ok || at.bowOut >= BOW_OUT)
    requires IsQuorumOf(at.hears(at.round + 1), |pr.acc|)
    ensures Reachable(c, s', false) && StandsDone(c, s', p, at, pr, at.Proposed(pr))
    ensures Does(c, s, s', p, before + [step], [at.hears(at.round + 1)], Failed(at.Proposed(pr)))
    ensures Accepts(c, step) == at.Proposed(pr).ok
    ensures at.Proposed(pr).ok ==> Chosen(c, s'.net, pr.number, at.req)
  {
    var s1, m, replies, highest;
    s1, before, m, replies, highest := RunPropose(c, s, p, at, pr);
    step := ProposeDone(p, replies, highest);
    s' := CloseProposal(c, s, s1, p, at, pr, at.Proposed(pr), before, m, replies, highest);
  }

  lemma CloseProposal(
    c: Config, s: State, s1: State, p: nat, at: Loop, pr: Round, q: Round, before: seq<Step>, m: Message,
    replies: map<nat, Message>, highest: nat) returns (s': State)
    requires pr.ok || at.bowOut >= BOW_OUT
    requires m.Propose? && Reachable(c, s1, false) && ProposeRead(c, s1, p, at, pr, q, m, replies, highest)
    requires Does(c, s, s1, p, before, [], 0)
    ensures Reachable(c, s', false) && StandsDone(c, s', p, at, pr, q)
    ensures var step := ProposeDone(p, replies, highest);
            && Does(c, s, s', p, before + [step], [at.hears(at.round + 1)], Failed(q)) && Accepts(c, step) == q.ok
    ensures q.ok ==> Chosen(c, s'.net, pr.number, at.req)
  {
    s' := ActOnPropose(c, s1, p, at, pr, q, m, replies, highest);
    ReadsPropose(c, s1, p, at, pr, q, m, replies, highest);
    DoesRead(c, s, s1, s', p, before, ProposeDone(p, replies, highest), at.hears(at.round + 1), Failed(q));
  }

  lemma ReadsPropose(
    c: Config, s: State, p: nat, at: Loop, pr: Round, q: Round, m: Message, replies: map<nat, Message>, highest: nat)
    requires m.Propose? && ProposeRead(c, s, p, at, pr, q, m, replies, highest)
    ensures var step := ProposeDone(p, replies, highest);
            Accepts(c, step) == q.ok && HeardIn(step) == [at.hears(at.round + 1)]
  {
  }

  // ----- the loop -----

  /** `p` completes its request alone, hearing the loop's replies round after round, with the verdict `o`;
      accepted means by a quorum, under a number not below the loop's. */
  ghost predicate Completes(c: Config, s: State, s': State, p: nat, steps: seq<Step>, at: Loop, o: Outcome)
  {
    && Leads(c, s, s', steps) && Alone(steps, p) && steps != [] && Verdict(c, steps) == o
    && Heard(steps) == Rounds(at.hears, at.round, |Heard(steps)|)
    && p in s'.proposers && PhaseOf(s', p).Idle?
    && (o.accepted ==> ChosenFrom(c, s'.net, at.number, at.req))
  }

  ghost predicate ChosenFrom(c: Config, net: set<Message>, number: nat, req: Request)
  {
    exists n: nat :: n >= number && Chosen(c, net, n, req)
  }

  lemma ThenCompletes(
    c: Config, s: State, s': State, s'': State, p: nat, at: Loop, next: Loop, first: seq<Step>, heard: seq<set<nat>>,
    failures: nat, rest: seq<Step>, o: Outcome)
    requires Does(c, s, s', p, first, heard, failures) && Completes(c, s', s'', p, rest, next, o)
    requires heard == Rounds(at.hears, at.round, |heard|)
    requires next.hears == at.hears && next.round == at.round + |heard| && next.req == at.req
    requires next.number >= at.number
    ensures Completes(c, s, s'', p, first + rest, at, o.(failures := failures + o.failures))
  {
    DoesMore(c, s, s', s'', p, first, heard, failures, rest, Heard(rest), o.failures);
    RoundsBoth(at.hears, at.round, |heard|, |Heard(rest)|);
    assert (first + rest)[|first + rest| - 1] == rest[|rest| - 1];
  }

  /** A stretch that ends with the end of a `propose` and leaves the proposer idle completes its request. */
  lemma CompletesNow(
    c: Config, s: State, s': State, p: nat, at: Loop, before: seq<Step>, step: Step, heard: seq<set<nat>>,
    failures: nat)
    requires Does(c, s, s', p, before + [step], heard, failures) && p in s'.proposers && PhaseOf(s', p).Idle?
    requires heard == Rounds(at.hears, at.round, |heard|)
    requires Accepts(c, step) ==> ChosenFrom(c, s'.net, at.number, at.req)
    ensures Completes(c, s, s', p, before + [step], at, Outcome(Accepts(c, step), failures))
  {
  }

  /** Both calls of a turn of the loop. */
  lemma AfterBoth(c: Config, s: State, s1: State, p: nat, at: Loop, first: seq<Step>)
    returns (s': State, before: seq<Step>, step: Step)
    requires Reachable(c, s1, false) && StandsToPropose(c, s1, p, at, at.Prepared()) && at.Ready()
    requires at.Prepared().ok || at.bowOut >= BOW_OUT
    requires Does(c, s, s1, p, first, [at.hears(at.round)], Failed(at.Prepared()))
    ensures var pr, q := at.Prepared(), at.Proposed(at.Prepared());
            && Reachable(c, s', false) && StandsDone(c, s', p, at, pr, q) && Accepts(c, step) == q.ok
            && Does(c, s, s', p, before + [step], Rounds(at.hears, at.round, 2), Failed(pr) + Failed(q))
            && (q.ok ==> Chosen(c, s'.net, pr.number, at.req))
  {
    var pr := at.Prepared();
    var last;
    assert IsQuorumOf(at.hears(at.round + 1), |pr.acc|);
    s', last, step := AfterProposal(c, s1, p, at, pr);
    before := first + last;
    JoinCalls(c, s, s1, s', p, at, first, last, step, Failed(pr), Failed(at.Proposed(pr)));
  }

  lemma JoinCalls(
    c: Config, s: State, s': State, s'': State, p: nat, at: Loop, first: seq<Step>, last: seq<Step>, step: Step,
    f: nat, f': nat)
    requires Does(c, s, s', p, first, [at.hears(at.round)], f)
    requires Does(c, s', s'', p, last + [step], [at.hears(at.round + 1)], f')
    ensures Does(c, s, s'', p, first + last + [step], Rounds(at.hears, at.round, 2), f + f')
  {
    DoesMore(c, s, s', s'', p, first, [at.hears(at.round)], f, last + [step], [at.hears(at.round + 1)], f');
    assert first + (last + [step]) == first + last + [step];
    assert [at.hears(at.round)] + [at.hears(at.round + 1)] == Rounds(at.hears, at.round, 2);
  }

  lemma NumbersRise(at: Loop)
    ensures var p := at.Prepared(); at.number <= p.number <= at.Proposed(p).number
  {
  }

  lemma UnpreparedCompletes(
    c: Config, s: State, s': State, s'': State, p: nat, at: Loop, first: seq<Step>, rest: seq<Step>)
    requires at.Ready() && !at.Prepared().ok && at.bowOut < BOW_OUT && at.Unprepared(at.Prepared()).Ready()
    requires Does(c, s, s', p, first, [at.hears(at.round)], 1)
    requires Completes(c, s', s'', p, rest, at.Unprepared(at.Prepared()), Retry(at.Unprepared(at.Prepared())))
    ensures Completes(c, s, s'', p, first + rest, at, Retry(at))
  {
    var next := at.Unprepared(at.Prepared());
    NumbersRise(at);
    assert [at.hears(at.round)] == Rounds(at.hears, at.round, 1);
    ThenCompletes(c, s, s', s'', p, at, next, first, [at.hears(at.round)], 1, rest, Retry(next));
  }

  lemma RefusedCompletes(
    c: Config, s: State, s': State, s'': State, p: nat, at: Loop, first: seq<Step>, rest: seq<Step>)
    requires at.Ready() && Again(at, at.Prepared(), at.Proposed(at.Prepared()))
    requires at.Refused(at.Proposed(at.Prepared())).Ready()
    requires Does(c, s, s', p, first, Rounds(at.hears, at.round, 2), 1)
    requires var next := at.Refused(at.Proposed(at.Prepared())); Completes(c, s', s'', p, rest, next, Retry(next))
    ensures Completes(c, s, s'', p, first + rest, at, Retry(at))
  {
    var next := at.Refused(at.Proposed(at.Prepared()));
    NumbersRise(at);
    ThenCompletes(c, s, s', s'', p, at, next, first, Rounds(at.hears, at.round, 2), 1, rest, Retry(next));
  }

  lemma BothComplete(c: Config, s: State, s': State, p: nat, at: Loop, before: seq<Step>, step: Step)
    requires at.Ready() && (at.Prepared().ok || at.bowOut >= BOW_OUT)
    requires var pr, q := at.Prepared(), at.Proposed(at.Prepared());
             && !Again(at, pr, q) && StandsDone(c, s', p, at, pr, q) && Accepts(c, step) == q.ok
             && Does(c, s, s', p, before + [step], Rounds(at.hears, at.round, 2), Failed(pr) + Failed(q))
             && (q.ok ==> Chosen(c, s'.net, pr.number, at.req))
    ensures Completes(c, s, s', p, before + [step], at, Retry(at))
  {
    NumbersRise(at);
    CompletesNow(c, s, s', p, at, before, step, Rounds(at.hears, at.round, 2),
                 Failed(at.Prepared()) + Failed(at.Proposed(at.Prepared())));
  }

  /** The retry loop is a run of the protocol: from any reachable state in which the proposer stands at the
      loop's beginning it alone completes its request, hearing in each round exactly what the loop hears,
      with the loop's verdict, accepted or not, after as many failures. */
  lemma {:induction false} RetryIsRun(c: Config, s: State, p: nat, at: Loop) returns (s': State, steps: seq<Step>)
    requires Reachable(c, s, false) && Stands(c, s, p, at) && at.Ready()
    ensures Reachable(c, s', false) && Completes(c, s, s', p, steps, at, Retry(at))
    decreases BOW_OUT - at.bowOut, |at.Above()|, 1
  {
    var s1, first := AfterPrepare(c, s, p, at);
    if !at.Prepared().ok && at.bowOut < BOW_OUT {
      UnpreparedShrinks(at);
      var rest;
      s', rest := RetryIsRun(c, s1, p, at.Unprepared(at.Prepared()));
      steps := first + rest;
      UnpreparedCompletes(c, s, s1, s', p, at, first, rest);
    } else {
      s', steps := ProposeIsRun(c, s, s1, p, at, first);
    }
  }

  lemma {:induction false} ProposeIsRun(c: Config, s: State, s1: State, p: nat, at: Loop, first: seq<Step>)
    returns (s': State, steps: seq<Step>)
    requires Reachable(c, s1, false) && StandsToPropose(c, s1, p, at, at.Prepared()) && at.Ready()
    requires at.Prepared().ok || at.bowOut >= BOW_OUT
    requires Does(c, s, s1, p, first, [at.hears(at.round)], Failed(at.Prepared()))
    ensures Reachable(c, s', false) && Completes(c, s, s', p, steps, at, Retry(at))
    decreases BOW_OUT - at.bowOut, |at.Above()|, 0
  {
    var before, step;
    s', before, step := AfterBoth(c, s, s1, p, at, first);
    steps := before + [step];
    var q := at.Proposed(at.Prepared());
    if Again(at, at.Prepared(), q) {
      RefusedShrinks(at);
      ProperSubsetSize(AtOrAbove(q.acc, q.number), at.Above());
      var s2, rest := s', [];
      s', rest := RetryIsRun(c, s2, p, at.Refused(q));
      RefusedCompletes(c, s, s2, s', p, at, steps, rest);
      steps := steps + rest;
    } else {
      BothComplete(c, s, s', p, at, before, step);
    }
  }

  // ----- every reachable state -----

  /** The loop of an idle proposer that takes up a request in state `s`. */
  ghost function LoopFrom(c: Config, s: State, p: nat, hears: nat -> set<nat>, req: Request): (at: Loop)
    requires Named(c) && s.accepters.Keys == c.accepters && p in s.proposers
    ensures |at.acc| == |c.accepters| && Matches(c, s, at.acc)
    ensures at.number == Number(s, p) && at.bowOut == 1 && at.round == 0 && at.hears == hears && at.req == req
  {
    var n := |c.accepters|;
    assert forall i: nat | i < n :: i in c.accepters;
    Loop(seq(n, i requires 0 <= i < n => s.accepters[i]), Number(s, p), 1, 0, hears, req)
  }

  /** There are accepters, and they are 0, 1, 2, ... */
  ghost predicate Named(c: Config)
  {
    0 < |c.accepters| && c.accepters == First(|c.accepters|)
  }

  lemma CountersInOrder(c: Config, s: State)
    requires Reachable(c, s, false)
    ensures s.accepters.Keys == c.accepters
    ensures forall a | a in s.accepters :: s.accepters[a].accepted <= s.accepters[a].promised
  {
    var states, steps :| IsRun(c, states, steps) && states[|steps|] == s;
    RunInv(c, states, steps);
  }

  lemma LoopIsReady(c: Config, s: State, p: nat, hears: nat -> set<nat>, req: Request)
    requires Named(c) && Reachable(c, s, false) && p in s.proposers && Delivers(hears, |c.accepters|)
    ensures s.accepters.Keys == c.accepters && LoopFrom(c, s, p, hears, req).Ready()
  {
    CountersInOrder(c, s);
  }

  /** Whatever state a run is in and whatever messages are still about: an idle proposer that takes up a
      request and is left alone completes it with the verdict of its loop. */
  lemma RequestIsRun(c: Config, s: State, p: nat, hears: nat -> set<nat>, req: Request)
    returns (s1: State, s': State, steps: seq<Step>)
    requires Named(c) && Reachable(c, s, false) && p in s.proposers && PhaseOf(s, p).Idle?
    requires Delivers(hears, |c.accepters|)
    ensures s.accepters.Keys == c.accepters && LoopFrom(c, s, p, hears, req).Ready()
    ensures Next(c, s, s1, Begin(p, req)) && Reachable(c, s', false)
    ensures var at := LoopFrom(c, s, p, hears, req); Completes(c, s1, s', p, steps, at, Retry(at))
  {
    LoopIsReady(c, s, p, hears, req);
    var at := LoopFrom(c, s, p, hears, req);
    s1 := BeginLoop(c, s, p, at);
    s', steps := RetryIsRun(c, s1, p, at);
  }

  lemma BeginLoop(c: Config, s: State, p: nat, at: Loop) returns (s1: State)
    requires Reachable(c, s, false) && p in s.proposers && PhaseOf(s, p).Idle?
    requires Matches(c, s, at.acc) && at.number == Number(s, p) && at.bowOut == 1
    ensures Next(c, s, s1, Begin(p, at.req)) && Reachable(c, s1, false) && Stands(c, s1, p, at)
  {
    s1 := DoBegin(c, s, p, at.req, false);
    MovedMatches(c, s, s1, p, at.acc);
  }

  /** With at most 102 accepters the request is always accepted: by a quorum, under a number the proposer
      had not passed before, after at most 1 + n - q failed calls. */
  lemma RequestGetsChosen(c: Config, s: State, p: nat, hears: nat -> set<nat>, req: Request)
    returns (s1: State, s': State, steps: seq<Step>)
    requires Named(c) && Reachable(c, s, false) && p in s.proposers && PhaseOf(s, p).Idle?
    requires Delivers(hears, |c.accepters|) && |c.accepters| <= 102
    ensures Next(c, s, s1, Begin(p, req)) && Reachable(c, s', false)
    ensures Leads(c, s1, s', steps) && Alone(steps, p) && Heard(steps) == Rounds(hears, 0, |Heard(steps)|)
    ensures steps != [] && Accepts(c, steps[|steps| - 1])
    ensures Failures(c, steps) <= 1 + |c.accepters| - c.Majority()
    ensures p in s'.proposers && PhaseOf(s', p).Idle? && ChosenFrom(c, s'.net, Number(s, p), req)
  {
    s1, s', steps := RequestIsRun(c, s, p, hears, req);
    SmallEnough(|c.accepters|);
    LoneProposerSucceeds(LoopFrom(c, s, p, hears, req));
  }
}
