/** The proposer object: its calls and its nested retry loops, proved against `Retry`. */
module PaxosProposer {
  import opened Basics
  import opened Quorums
  import opened PaxosRoles
  import opened PaxosProgress
  import opened PaxosCalls

  /** What the loop, standing here, still comes to. */
  ghost predicate Owes(goal: Outcome, at: Loop)
  {
    at.Ready() && forall o | Comes(at, o) :: o == goal
  }

  lemma OwesExactly(goal: Outcome, at: Loop)
    requires at.Ready()
    ensures Owes(goal, at) <==> goal == Retry(at)
  {
    assert Comes(at, Retry(at));
  }

  ghost function OneLess(o: Outcome): Outcome
  {
    Outcome(o.accepted, if o.failures > 0 then o.failures - 1 else 0)
  }

  lemma AfterFailedPrepare(goal: Outcome, at: Loop)
    requires Owes(goal, at) && at.bowOut < BOW_OUT && !at.Prepared().ok
    ensures goal.failures > 0 && Owes(OneLess(goal), at.Unprepared(at.Prepared()))
  {
    UnpreparedShrinks(at);
    OwesExactly(goal, at);
    OwesExactly(OneLess(goal), at.Unprepared(at.Prepared()));
  }

  /** Where the outer loop stands after `propose`. */
  lemma AfterPropose(goal: Outcome, at: Loop)
    requires Owes(goal, at) && (at.Prepared().ok || at.bowOut >= BOW_OUT)
    ensures var q := at.Proposed(at.Prepared());
            && (q.ok ==> goal.accepted)
            && (!q.ok && at.bowOut >= BOW_OUT ==> !goal.accepted)
            && (!q.ok && at.bowOut < BOW_OUT ==> goal.failures > 0 && Owes(OneLess(goal), at.Refused(q)))
  {
    OwesExactly(goal, at);
    if at.Prepared().ok && !at.Proposed(at.Prepared()).ok {
      RefusedShrinks(at);
      OwesExactly(OneLess(goal), at.Refused(at.Proposed(at.Prepared())));
    }
  }

  class Proposer {
    var proposalNumber: nat

    constructor ()
      ensures proposalNumber == 0
    {
      proposalNumber := 0;
    }

    /** One call of `prepare`: every accepter answers, the replies in `read` are counted. */
    method Prepare(acc: seq<AccepterState>, read: set<nat>, round: nat, req: Request)
      returns (acc': seq<AccepterState>, ok: bool)
      modifies this
      ensures Round(acc', ok, proposalNumber) == PrepareRound(acc, old(proposalNumber), read, round, req)
      ensures IsQuorumOf(read, |acc|) ==> PrepareDone(acc, old(proposalNumber), read, acc', ok, proposalNumber)
    {
      var m := Message.Prepare(round, proposalNumber, req);
      acc' := PrepareAll(acc, m);
      var replies := PrepareReplies(acc, m);
      var promiseCount, highestSeen := Tally(replies, read);
      ok := promiseCount >= Quorum(|acc|);
      if !ok {
        proposalNumber := highestSeen + 1;
      }
      if IsQuorumOf(read, |acc|) {
        PrepareExactly(acc, old(proposalNumber), read, round, req);
      }
    }

    /** One call of `propose`; the number moves on whether it succeeds or not. */
    method Propose(acc: seq<AccepterState>, read: set<nat>, round: nat, req: Request)
      returns (acc': seq<AccepterState>, ok: bool)
      modifies this
      ensures Round(acc', ok, proposalNumber) == ProposeRound(acc, old(proposalNumber), read, round, req)
      ensures IsQuorumOf(read, |acc|) ==> ProposeDone(acc, old(proposalNumber), read, acc', ok, proposalNumber)
    {
      var m := Message.Propose(round, proposalNumber, req, None);
      acc' := ProposeAll(acc, m);
      var replies := ProposeReplies(acc, m);
      var accepterCount, highestSeen := Tally(replies, read);
      ok := accepterCount >= Quorum(|acc|);
      proposalNumber := highestSeen + 1;
      if IsQuorumOf(read, |acc|) {
        ProposeExactly(acc, old(proposalNumber), read, round, req);
      }
    }

    /** The loop over the results: count what is not a NACK, remember the highest number in a NACK. */
    method Tally(replies: seq<Message>, read: set<nat>) returns (count: nat, highestSeen: nat)
      ensures count == Positives(replies, read, |replies|)
      ensures highestSeen == Highest(replies, read, proposalNumber, |replies|)
    {
      count, highestSeen := 0, proposalNumber;
      for i := 0 to |replies|
        invariant count == Positives(replies, read, i)
        invariant highestSeen == Highest(replies, read, proposalNumber, i)
      {
        if i in read {
          if replies[i].Nack? {
            highestSeen := if replies[i].num > highestSeen then replies[i].num else highestSeen;
          } else {
            count := count + 1;
          }
        }
      }
    }

    /** The inner loop: `prepare` until it succeeds or the retries are used up.  `at` is where the loop
        stands before the last call, `goal'` what is then still to come. */
    method PrepareLoop(
      acc: seq<AccepterState>, hears: nat -> set<nat>, bowOut: nat, round: nat, req: Request, ghost goal: Outcome)
      returns (acc': seq<AccepterState>, prepared: bool, bowOut': nat, round': nat,
               ghost at: Loop, ghost goal': Outcome)
      requires Owes(goal, Loop(acc, proposalNumber, bowOut, round, hears, req))
      modifies this
      ensures Owes(goal', at) && at.Prepared() == Round(acc', prepared, proposalNumber)
      ensures at.bowOut == bowOut' && at.round == round' && at.hears == hears && at.req == req
      ensures goal'.accepted == goal.accepted && goal'.failures <= goal.failures
      ensures prepared || bowOut' >= BOW_OUT
    {
      bowOut', round', goal' := bowOut, round, goal;
      at := Loop(acc, proposalNumber, bowOut, round, hears, req);
      acc', prepared := Prepare(acc, hears(round'), round', req);
      while !prepared && bowOut' < BOW_OUT
        invariant Owes(goal', at) && at.Prepared() == Round(acc', prepared, proposalNumber)
        invariant at.bowOut == bowOut' && at.round == round' && at.hears == hears && at.req == req
        invariant goal'.accepted == goal.accepted && goal'.failures <= goal.failures
      {
        at, acc', prepared := PrepareAgain(acc', hears, bowOut', round', req, goal', at);
        bowOut', round', goal' := bowOut' + 1, round' + 1, OneLess(goal');
      }
    }

    /** One more `prepare` after a failed one. */
    method PrepareAgain(acc: seq<AccepterState>, hears: nat -> set<nat>, bowOut: nat, round: nat, req: Request,
                        ghost goal: Outcome, ghost at: Loop)
      returns (ghost at': Loop, acc': seq<AccepterState>, prepared: bool)
      requires Owes(goal, at) && at.Prepared() == Round(acc, false, proposalNumber) && bowOut < BOW_OUT
      requires at.bowOut == bowOut && at.round == round && at.hears == hears && at.req == req
      modifies this
      ensures Owes(OneLess(goal), at') && at'.Prepared() == Round(acc', prepared, proposalNumber)
      ensures at'.bowOut == bowOut + 1 && at'.round == round + 1 && at'.hears == hears && at'.req == req
    {
      AfterFailedPrepare(goal, at);
      at' := Loop(acc, proposalNumber, bowOut + 1, round + 1, hears, req);
      acc', prepared := Prepare(acc, hears(round + 1), round + 1, req);
    }

    /** The outer retry loop around the inner one and `propose`. */
    method HandleRequest(acc: seq<AccepterState>, hears: nat -> set<nat>, req: Request) returns (accepted: bool)
      requires WellFormed(acc) && Delivers(hears, |acc|)
      modifies this
      ensures accepted == Retry(Loop(acc, old(proposalNumber), 1, 0, hears, req)).accepted
    {
      ghost var at := Loop(acc, proposalNumber, 1, 0, hears, req);
      OwesExactly(Retry(at), at);
      accepted := RetryLoop(acc, hears, req, Retry(at));
    }

    method RetryLoop(acc: seq<AccepterState>, hears: nat -> set<nat>, req: Request, ghost goal: Outcome)
      returns (accepted: bool)
      requires Owes(goal, Loop(acc, proposalNumber, 1, 0, hears, req))
      modifies this
      ensures accepted == goal.accepted
    {
      var states := acc;
      var bowOut: nat, round: nat := 1, 0;
      ghost var rest := goal;
      accepted := false;
      while bowOut < BOW_OUT && !accepted
        invariant accepted ==> goal.accepted
        invariant !accepted && bowOut < BOW_OUT ==>
          Owes(rest, Loop(states, proposalNumber, bowOut, round, hears, req)) && rest.accepted == goal.accepted
        invariant !accepted && bowOut >= BOW_OUT ==> !goal.accepted
        decreases !accepted, bowOut < BOW_OUT, rest.failures
      {
        accepted, states, bowOut, round, rest := Attempt(states, hears, bowOut, round, req, rest);
      }
    }

    /** One turn of the outer loop. */
    method Attempt(
      acc: seq<AccepterState>, hears: nat -> set<nat>, bowOut: nat, round: nat, req: Request, ghost goal: Outcome)
      returns (accepted: bool, acc': seq<AccepterState>, bowOut': nat, round': nat, ghost goal': Outcome)
      requires Owes(goal, Loop(acc, proposalNumber, bowOut, round, hears, req))
      modifies this
      ensures accepted ==> goal.accepted
      ensures !accepted && bowOut' >= BOW_OUT ==> !goal.accepted
      ensures !accepted && bowOut' < BOW_OUT ==>
          && Owes(goal', Loop(acc', proposalNumber, bowOut', round', hears, req))
          && goal'.accepted == goal.accepted && goal'.failures < goal.failures
    {
      var prepared;
      ghost var at;
      acc', prepared, bowOut', round', at, goal' := PrepareLoop(acc, hears, bowOut, round, req, goal);
      acc', accepted, goal' := ProposeOnce(acc', hears, bowOut', round', req, prepared, at, goal');
      if !prepared {
        bowOut' := bowOut' + 1;
      }
      round' := round' + 2;
    }

    /** The `propose` after the inner loop; `at` is where the loop stood before the last `prepare`. */
    method ProposeOnce(acc: seq<AccepterState>, hears: nat -> set<nat>, bowOut: nat, round: nat, req: Request,
                       prepared: bool, ghost at: Loop, ghost goal: Outcome)
      returns (acc': seq<AccepterState>, accepted: bool, ghost goal': Outcome)
      requires Owes(goal, at) && at.Prepared() == Round(acc, prepared, proposalNumber)
      requires at.bowOut == bowOut && at.round == round && at.hears == hears && at.req == req
      requires prepared || bowOut >= BOW_OUT
      modifies this
      ensures accepted ==> goal.accepted
      ensures !accepted && bowOut >= BOW_OUT ==> !goal.accepted
      ensures !accepted && bowOut < BOW_OUT ==>
          && Owes(goal', Loop(acc', proposalNumber, bowOut, round + 2, hears, req))
          && goal'.accepted == goal.accepted && goal'.failures < goal.failures
    {
      ghost var p := at.Prepared();
      AfterPropose(goal, at);
      acc', accepted := Propose(acc, hears(round + 1), round + 1, req);
      assert at.Proposed(p) == Round(acc', accepted, proposalNumber);
      assert at.Refused(at.Proposed(p)) == Loop(acc', proposalNumber, bowOut, round + 2, hears, req);
      goal' := OneLess(goal);
    }
  }
}
