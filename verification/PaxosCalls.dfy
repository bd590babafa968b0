/** What one call of `prepare` or `propose` does, spelled out on the promises of the accepters, when all of
    them answer and a quorum of the answers is read. */
module PaxosCalls {
  import opened Basics
  import opened PaxosRoles
  import opened PaxosProgress

  /** The number one above the highest of `number` and the promises of those read. */
  ghost predicate IsNextAbove(acc: seq<AccepterState>, number: nat, read: set<nat>, next: nat)
    requires forall i | i in read :: i < |acc|
  {
    && next > number && (forall i | i in read :: next > acc[i].promised)
    && (next == number + 1 || exists i :: i in read && next == acc[i].promised + 1)
  }

  /** Whoever promised less promises the number; the call succeeds when everyone read did, and the number
      stays; otherwise it moves above every promise read. */
  ghost predicate PrepareDone(
    acc: seq<AccepterState>, number: nat, read: set<nat>, acc': seq<AccepterState>, ok: bool, number': nat)
    requires forall i | i in read :: i < |acc|
  {
    && |acc'| == |acc|
    && (forall i | 0 <= i < |acc| ::
          acc'[i] == AccepterState(if acc[i].promised < number then number else acc[i].promised, acc[i].accepted))
    && (ok <==> forall i | i in read :: acc[i].promised < number)
    && if ok then number' == number else IsNextAbove(acc, number, read, number')
  }

  /** Whoever promised exactly the number, and has not accepted it, accepts it; the call succeeds when
      everyone read did, and the number moves on in any case. */
  ghost predicate ProposeDone(
    acc: seq<AccepterState>, number: nat, read: set<nat>, acc': seq<AccepterState>, ok: bool, number': nat)
    requires forall i | i in read :: i < |acc|
  {
    && |acc'| == |acc|
    && (forall i | 0 <= i < |acc| ::
          acc'[i] == AccepterState(acc[i].promised, if Accepts(acc[i], number) then number else acc[i].accepted))
    && (ok <==> forall i | i in read :: Accepts(acc[i], number))
    && IsNextAbove(acc, number, read, number')
  }

  ghost predicate Accepts(s: AccepterState, number: nat)
  {
    s.promised == number > s.accepted
  }

  /** The highest number heard, when each NACK carries a promise and the others promised no more than
      the number asked for. */
  lemma HighestIsNext(acc: seq<AccepterState>, replies: seq<Message>, read: set<nat>, number: nat)
    requires |replies| == |acc| && forall i | i in read :: i < |acc|
    requires forall i: nat | i < |acc| && replies[i].Nack? :: replies[i].num == acc[i].promised
    requires forall i: nat | i < |acc| && !replies[i].Nack? :: acc[i].promised <= number
    ensures IsNextAbove(acc, number, read, Highest(replies, read, number, |replies|) + 1)
  {
    HighestAttained(replies, read, number, |replies|);
  }

  lemma PrepareExactly(acc: seq<AccepterState>, number: nat, read: set<nat>, round: nat, req: Request)
    requires IsQuorumOf(read, |acc|)
    ensures var r := PrepareRound(acc, number, read, round, req);
            PrepareDone(acc, number, read, r.acc, r.ok, r.number)
  {
    var replies := PrepareReplies(acc, Message.Prepare(round, number, req));
    FailsIffNack(replies, read);
    HighestIsNext(acc, replies, read, number);
    assert forall i: nat | i < |acc| :: replies[i].Nack? <==> acc[i].promised >= number;
  }

  lemma ProposeExactly(acc: seq<AccepterState>, number: nat, read: set<nat>, round: nat, req: Request)
    requires IsQuorumOf(read, |acc|)
    ensures var r := ProposeRound(acc, number, read, round, req);
            ProposeDone(acc, number, read, r.acc, r.ok, r.number)
  {
    var replies := ProposeReplies(acc, Message.Propose(round, number, req, None));
    FailsIffNack(replies, read);
    HighestIsNext(acc, replies, read, number);
    assert forall i: nat | i < |acc| :: replies[i].Nack? <==> !Accepts(acc[i], number);
  }
}
