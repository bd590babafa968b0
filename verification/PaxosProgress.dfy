/** A lone proposer makes progress: when every round is delivered to all accepters before the next one,
    the retry loop ends with an accepted proposal, although only the first quorum of replies is read,
    exactly when a quorum leaves at most 40 accepters out. */
module PaxosProgress {
  import opened Basics
  import opened SetSizes
  import opened Quorums
  import opened PaxosRoles

  // ----- one exchange: every accepter answers, the proposer hears the answers in `read` -----

  function PrepareAll(acc: seq<AccepterState>, m: Message): (r: seq<AccepterState>)
    requires m.Prepare?
    ensures |r| == |acc|
  {
    seq(|acc|, i requires 0 <= i < |acc| => HandlePrepare(acc[i], i, m).0)
  }

  function PrepareReplies(acc: seq<AccepterState>, m: Message): (r: seq<Message>)
    requires m.Prepare?
    ensures |r| == |acc|
  {
    seq(|acc|, i requires 0 <= i < |acc| => HandlePrepare(acc[i], i, m).1)
  }

  function ProposeAll(acc: seq<AccepterState>, m: Message): (r: seq<AccepterState>)
    requires m.Propose?
    ensures |r| == |acc|
  {
    seq(|acc|, i requires 0 <= i < |acc| => HandlePropose(acc[i], i, m).0)
  }

  function ProposeReplies(acc: seq<AccepterState>, m: Message): (r: seq<Message>)
    requires m.Propose?
    ensures |r| == |acc|
  {
    seq(|acc|, i requires 0 <= i < |acc| => HandlePropose(acc[i], i, m).1)
  }

  /** How many of the replies read, among the first `upto`, are not NACKs. */
  function Positives(replies: seq<Message>, read: set<nat>, upto: nat): nat
    requires upto <= |replies|
  {
    if upto == 0 then 0
    else Positives(replies, read, upto - 1) + if upto - 1 in read && !replies[upto - 1].Nack? then 1 else 0
  }

  /** The highest number among `start` and the NACKs read, among the first `upto` replies. */
  function Highest(replies: seq<Message>, read: set<nat>, start: nat, upto: nat): (h: nat)
    requires upto <= |replies|
    ensures h >= start
    ensures forall i: nat | i < upto && i in read && replies[i].Nack? :: replies[i].num <= h
  {
    if upto == 0 then start
    else
      var h := Highest(replies, read, start, upto - 1);
      if upto - 1 in read && replies[upto - 1].Nack? && replies[upto - 1].num > h then replies[upto - 1].num else h
  }

  lemma {:induction false} HighestAttained(replies: seq<Message>, read: set<nat>, start: nat, upto: nat)
    requires upto <= |replies|
    ensures var h := Highest(replies, read, start, upto);
            h == start || exists i: nat :: i < upto && i in read && replies[i].Nack? && replies[i].num == h
  {
    if upto > 0 {
      HighestAttained(replies, read, start, upto - 1);
    }
  }

  /** What may be read of a round: exactly a quorum of the accepters' replies. */
  ghost predicate IsQuorumOf(read: set<nat>, n: nat)
  {
    |read| == Quorum(n) && forall i | i in read :: i < n
  }

  // ----- the retry loop as a function of the accepters' states and of what is read -----

  ghost predicate WellFormed(acc: seq<AccepterState>)
  {
    |acc| > 0 && forall i | 0 <= i < |acc| :: acc[i].accepted <= acc[i].promised
  }

  ghost predicate Delivers(hears: nat -> set<nat>, n: nat)
  {
    forall k: nat {:trigger IsQuorumOf(hears(k), n)} :: IsQuorumOf(hears(k), n)
  }

  /** The accepters a proposer with this number still has to overtake. */
  ghost function AtOrAbove(acc: seq<AccepterState>, number: nat): set<nat>
  {
    set i: nat | i < |acc| && acc[i].promised >= number
  }

  datatype Round = Round(acc: seq<AccepterState>, ok: bool, number: nat)

  ghost function PrepareRound(acc: seq<AccepterState>, number: nat, read: set<nat>, round: nat, req: Request): Round
  {
    var m := Message.Prepare(round, number, req);
    var replies := PrepareReplies(acc, m);
    var ok := Positives(replies, read, |replies|) >= Quorum(|acc|);
    Round(PrepareAll(acc, m), ok, if ok then number else Highest(replies, read, number, |replies|) + 1)
  }

  ghost function ProposeRound(acc: seq<AccepterState>, number: nat, read: set<nat>, round: nat, req: Request): Round
  {
    var m := Message.Propose(round, number, req, None);
    var replies := ProposeReplies(acc, m);
    Round(ProposeAll(acc, m), Positives(replies, read, |replies|) >= Quorum(|acc|),
          Highest(replies, read, number, |replies|) + 1)
  }

  /** If some reply read is a NACK, fewer than `|read|` are positive, and conversely. */
  lemma {:induction false} PositivesCount(replies: seq<Message>, read: set<nat>, upto: nat)
    requires upto <= |replies|
    ensures Positives(replies, read, upto) == |set i: nat | i < upto && i in read && !replies[i].Nack?|
  {
    if upto > 0 {
      PositivesCount(replies, read, upto - 1);
      OnePositiveMore(replies, read, upto - 1);
    }
  }

  lemma OnePositiveMore(replies: seq<Message>, read: set<nat>, k: nat)
    requires k < |replies|
    ensures |set i: nat | i < k + 1 && i in read && !replies[i].Nack?|
         == |set i: nat | i < k && i in read && !replies[i].Nack?| + if k in read && !replies[k].Nack? then 1 else 0
  {
    var before := set i: nat | i < k && i in read && !replies[i].Nack?;
    var now := set i: nat | i < k + 1 && i in read && !replies[i].Nack?;
    assert now == before + if k in read && !replies[k].Nack? then {k} else {};
  }

  /** A round read in full quorum fails exactly when a NACK is among the replies read. */
  lemma FailsIffNack(replies: seq<Message>, read: set<nat>)
    requires IsQuorumOf(read, |replies|)
    ensures Positives(replies, read, |replies|) < Quorum(|replies|) <==> exists i :: i in read && replies[i].Nack?
  {
    PositivesCount(replies, read, |replies|);
    var good := set i: nat | i < |replies| && i in read && !replies[i].Nack?;
    if i :| i in read && replies[i].Nack? {
      ProperSubsetSize(good, read);
    } else {
      assert good == read;
    }
  }

  /** A failed `prepare` strictly shrinks the set to overtake, and clears everyone it read. */
  lemma PrepareFailureShrinks(acc: seq<AccepterState>, number: nat, read: set<nat>, round: nat, req: Request)
    requires WellFormed(acc) && IsQuorumOf(read, |acc|)
    requires !PrepareRound(acc, number, read, round, req).ok
    ensures var r := PrepareRound(acc, number, read, round, req);
            && WellFormed(r.acc) && r.number > number
            && AtOrAbove(r.acc, r.number) < AtOrAbove(acc, number)
            && AtOrAbove(r.acc, r.number) !! read
  {
    var replies := PrepareReplies(acc, Message.Prepare(round, number, req));
    var r := PrepareRound(acc, number, read, round, req);
    FailsIffNack(replies, read);
    var i :| i in read && replies[i].Nack?;
    assert i in AtOrAbove(acc, number) && i !in AtOrAbove(r.acc, r.number);
  }

  /** A successful `prepare` leaves the set to overtake as it was, up to those who just promised. */
  lemma PrepareSuccess(acc: seq<AccepterState>, number: nat, read: set<nat>, round: nat, req: Request)
    requires WellFormed(acc) && PrepareRound(acc, number, read, round, req).ok
    ensures var r := PrepareRound(acc, number, read, round, req);
            && WellFormed(r.acc) && r.number == number
            && (forall i | 0 <= i < |acc| :: acc[i].promised >= number ==> r.acc[i] == acc[i])
            && (forall i | 0 <= i < |acc| ::
                  acc[i].promised < number ==> r.acc[i] == AccepterState(number, acc[i].accepted))
  {
  }

  /** The same for a `propose` that follows a successful `prepare` of the same number. */
  lemma ProposeFailureShrinks(
    acc: seq<AccepterState>, number: nat, read: set<nat>, read': set<nat>, round: nat, req: Request)
    requires WellFormed(acc) && IsQuorumOf(read', |acc|)
    requires PrepareRound(acc, number, read, round, req).ok
    requires !ProposeRound(PrepareRound(acc, number, read, round, req).acc, number, read', round + 1, req).ok
    ensures var r := ProposeRound(PrepareRound(acc, number, read, round, req).acc, number, read', round + 1, req);
            && WellFormed(r.acc) && r.number > number
            && AtOrAbove(r.acc, r.number) < AtOrAbove(acc, number)
            && AtOrAbove(r.acc, r.number) !! read'
  {
    PrepareSuccess(acc, number, read, round, req);
    var p := PrepareRound(acc, number, read, round, req);
    var r := ProposeRound(p.acc, number, read', round + 1, req);
    var replies := ProposeReplies(p.acc, Message.Propose(round + 1, number, req, None));
    FailsIffNack(replies, read');
    var i :| i in read' && replies[i].Nack?;
    assert i in AtOrAbove(acc, number) && i !in AtOrAbove(r.acc, r.number);
  }

  datatype Outcome = Outcome(accepted: bool, failures: nat)

  /** Where the retry loop stands when `prepare` is about to be called: the accepters, the proposer's
      number and retry counter, the index of the next round, which replies each round hears, the request. */
  datatype Loop = Loop(
    acc: seq<AccepterState>, number: nat, bowOut: nat, round: nat, hears: nat -> set<nat>, req: Request)
  {
    ghost predicate Ready() { WellFormed(acc) && Delivers(hears, |acc|) }

    ghost function Prepared(): Round { PrepareRound(acc, number, hears(round), round, req) }

    ghost function Proposed(p: Round): Round { ProposeRound(p.acc, p.number, hears(round + 1), round + 1, req) }

    function Unprepared(p: Round): Loop { Loop(p.acc, p.number, bowOut + 1, round + 1, hears, req) }

    function Refused(q: Round): Loop { Loop(q.acc, q.number, bowOut, round + 2, hears, req) }

    ghost function Above(): set<nat> { AtOrAbove(acc, number) }

    /** The retry counter after a `prepare`. */
    function RetriesAfter(p: Round): nat { if p.ok then bowOut else bowOut + 1 }
  }

  lemma UnpreparedShrinks(at: Loop)
    requires at.Ready() && !at.Prepared().ok
    ensures at.Unprepared(at.Prepared()).Ready()
    ensures var p := at.Prepared(); p.number > at.number && AtOrAbove(p.acc, p.number) < at.Above()
    ensures var p := at.Prepared(); AtOrAbove(p.acc, p.number) !! at.hears(at.round)
  {
    PrepareFailureShrinks(at.acc, at.number, at.hears(at.round), at.round, at.req);
  }

  lemma RefusedShrinks(at: Loop)
    requires at.Ready() && at.Prepared().ok && !at.Proposed(at.Prepared()).ok
    ensures at.Refused(at.Proposed(at.Prepared())).Ready()
    ensures var q := at.Proposed(at.Prepared()); q.number > at.number && AtOrAbove(q.acc, q.number) < at.Above()
    ensures var q := at.Proposed(at.Prepared()); AtOrAbove(q.acc, q.number) !! at.hears(at.round + 1)
  {
    ProposeFailureShrinks(at.acc, at.number, at.hears(at.round), at.hears(at.round + 1), at.round, at.req);
  }

  /** The retry loop from the point where `prepare` is about to be called. */
  ghost function Retry(at: Loop): Outcome
    requires at.Ready()
    decreases BOW_OUT - at.bowOut, |at.Above()|
  {
    var p := at.Prepared();
    var q := at.Proposed(p);
    if !p.ok && at.bowOut < BOW_OUT then
      UnpreparedShrinks(at);
      var rest := Retry(at.Unprepared(p));
      rest.(failures := rest.failures + 1)
    else if !p.ok then
      Outcome(q.ok, if q.ok then 1 else 2)
    else if q.ok then
      Outcome(true, 0)
    else if at.bowOut >= BOW_OUT then
      Outcome(false, 1)
    else
      RefusedShrinks(at);
      ProperSubsetSize(AtOrAbove(q.acc, q.number), at.Above());
      var rest := Retry(at.Refused(q));
      rest.(failures := rest.failures + 1)
  }

  ghost predicate Comes(at: Loop, o: Outcome)
    requires at.Ready()
  {
    o == Retry(at)
  }

  /** The loop ends accepted after at most `k` failures. */
  ghost predicate Succeeds(at: Loop, k: nat)
  {
    at.Ready() && forall o | Comes(at, o) :: o.accepted && o.failures <= k
  }

  lemma SucceedsAfterPrepare(at: Loop, k: nat)
    requires at.Ready() && at.bowOut < BOW_OUT && !at.Prepared().ok
    requires Succeeds(at.Unprepared(at.Prepared()), k)
    ensures Succeeds(at, k + 1)
  {
    var next := at.Unprepared(at.Prepared());
    assert Comes(next, Retry(next));
  }

  lemma SucceedsAfterPropose(at: Loop, k: nat)
    requires at.Ready() && at.bowOut < BOW_OUT && at.Prepared().ok && !at.Proposed(at.Prepared()).ok
    requires Succeeds(at.Refused(at.Proposed(at.Prepared())), k)
    ensures Succeeds(at, k + 1)
  {
    var next := at.Refused(at.Proposed(at.Prepared()));
    assert Comes(next, Retry(next));
  }

  lemma SucceedsAtOnce(at: Loop, k: nat)
    requires at.Ready() && at.Prepared().ok && at.Proposed(at.Prepared()).ok
    ensures Succeeds(at, k)
  {
  }

  /** As long as the retries outnumber the accepters still to overtake, the loop ends accepted, with no
      more failures than there were accepters to overtake. */
  lemma {:induction false} OvertakesAll(at: Loop, k: nat)
    requires at.Ready() && |at.Above()| <= k && k + at.bowOut <= BOW_OUT
    ensures Succeeds(at, k)
    decreases k
  {
    var p := at.Prepared();
    if !p.ok {
      UnpreparedShrinks(at);
      ProperSubsetSize(AtOrAbove(p.acc, p.number), at.Above());
      OvertakesAll(at.Unprepared(p), k - 1);
      SucceedsAfterPrepare(at, k - 1);
    } else {
      var q := at.Proposed(p);
      if !q.ok {
        RefusedShrinks(at);
        ProperSubsetSize(AtOrAbove(q.acc, q.number), at.Above());
        OvertakesAll(at.Refused(q), k - 1);
        SucceedsAfterPropose(at, k - 1);
      } else {
        SucceedsAtOnce(at, k);
      }
    }
  }

  lemma DisjointFromRead(above: set<nat>, read: set<nat>, n: nat)
    requires IsQuorumOf(read, n) && above !! read && forall i | i in above :: i < n
    ensures |above| <= n - Quorum(n)
  {
    SubsetSize(above + read, First(n));
    assert |above + read| == |above| + |read|;
  }

  /** The indices below `n`. */
  ghost function First(n: nat): (r: set<nat>)
    ensures |r| == n && forall i: nat :: i in r <==> i < n
  {
    if n == 0 then {} else First(n - 1) + {n - 1}
  }

  /** A quorum leaves at most 40 accepters out exactly when there are at most 102 accepters. */
  lemma SmallEnough(n: nat)
    ensures n - Quorum(n) <= BOW_OUT - 2 <==> n <= 102
  {
  }

  lemma OvertakenAfterFirst(at: Loop)
    requires at.Ready() && at.bowOut == 1 && |at.acc| - Quorum(|at.acc|) <= BOW_OUT - 2
    ensures Succeeds(at, 1 + |at.acc| - Quorum(|at.acc|))
  {
    var n := |at.acc|;
    var k := n - Quorum(n);
    var p := at.Prepared();
    if !p.ok {
      UnpreparedShrinks(at);
      DisjointFromRead(AtOrAbove(p.acc, p.number), at.hears(at.round), n);
      OvertakesAll(at.Unprepared(p), k);
      SucceedsAfterPrepare(at, k);
    } else {
      var q := at.Proposed(p);
      if !q.ok {
        RefusedShrinks(at);
        DisjointFromRead(AtOrAbove(q.acc, q.number), at.hears(at.round + 1), n);
        OvertakesAll(at.Refused(q), k);
        SucceedsAfterPropose(at, k);
      } else {
        SucceedsAtOnce(at, 1 + k);
      }
    }
  }

  /** With at most 102 accepters the loop always ends accepted: the first failure already clears a
      quorum, every later one at least one accepter more. */
  lemma LoneProposerSucceeds(at: Loop)
    requires at.Ready() && at.bowOut == 1 && |at.acc| - Quorum(|at.acc|) <= BOW_OUT - 2
    ensures Retry(at).accepted && Retry(at).failures <= 1 + |at.acc| - Quorum(|at.acc|)
  {
    OvertakenAfterFirst(at);
    assert Comes(at, Retry(at));
  }
}
