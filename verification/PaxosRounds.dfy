/** One exchange of the lone proposer: every accepter answers, and what the proposer reads of the answers
    decides as `PaxosProgress` says. */
module PaxosRounds {
  import opened Basics
  import opened SetSizes
  import opened Quorums
  import opened PaxosRoles
  import opened PaxosProtocol
  import opened PaxosRuns
  import opened PaxosProgress
  import opened PaxosSolo

  /** The accepters are 0, 1, ... and stand as in the sequence. */
  ghost predicate Matches(c: Config, s: State, acc: seq<AccepterState>)
  {
    && |c.accepters| == |acc| && s.accepters.Keys == c.accepters
    && forall i: nat | i < |acc| :: i in s.accepters && s.accepters[i] == acc[i]
  }

  /** Proposer `p` stands at the given point of its loop. */
  ghost predicate Stands(c: Config, s: State, p: nat, at: Loop)
  {
    && Matches(c, s, at.acc) && p in s.proposers
    && s.proposers[p] == ProposerState(at.number, ReadyToPrepare(at.req, at.bowOut))
  }

  // ----- every accepter answers -----

  /** The first `k` accepters have answered PREPARE `m`. */
  ghost predicate PrepareAnswered(s: State, m: Message, acc: seq<AccepterState>, k: nat)
    requires m.Prepare? && k <= |acc|
  {
    && (forall i: nat | i < k :: i in s.accepters && s.accepters[i] == PrepareAll(acc, m)[i])
    && (forall i: nat | k <= i < |acc| :: i in s.accepters && s.accepters[i] == acc[i])
    && (forall i: nat | i < k :: PrepareReplies(acc, m)[i] in s.net)
  }

  lemma AnsweredTwice(s: State, s': State, s'': State)
    requires OnlyAnswered(s, s') && OnlyAnswered(s', s'')
    ensures OnlyAnswered(s, s'')
  {
  }

  lemma LeadsAnswer(c: Config, s: State, s': State, s'': State, m: Message, k: nat)
    requires Leads(c, s, s', AllAnswer(m, k)) && Leads(c, s', s'', [AnswerStep(m, k)])
    ensures Leads(c, s, s'', AllAnswer(m, k + 1))
  {
    LeadsOn(c, s, s', s'', AllAnswer(m, k), [AnswerStep(m, k)]);
  }

  lemma AnswerOnePrepare(c: Config, s: State, m: Message, acc: seq<AccepterState>, k: nat) returns (s': State)
    requires Reachable(c, s, false) && m in s.net && m.Prepare? && k < |acc| && PrepareAnswered(s, m, acc, k)
    ensures Reachable(c, s', false) && OnlyAnswered(s, s') && PrepareAnswered(s', m, acc, k + 1)
    ensures Leads(c, s, s', [AnswerStep(m, k)])
  {
    s' := DoDeliverPrepare(c, s, k, m, false);
    PrepareAnsweredMore(s, s', m, acc, k);
  }

  lemma PrepareAnsweredMore(s: State, s': State, m: Message, acc: seq<AccepterState>, k: nat)
    requires m.Prepare? && k < |acc| && PrepareAnswered(s, m, acc, k) && s.net <= s'.net
    requires s'.accepters == s.accepters[k := HandlePrepare(s.accepters[k], k, m).0]
    requires HandlePrepare(s.accepters[k], k, m).1 in s'.net
    ensures PrepareAnswered(s', m, acc, k + 1)
  {
  }

  lemma {:induction false} AnswerPrepare(c: Config, s: State, m: Message, acc: seq<AccepterState>, k: nat)
    returns (s': State)
    requires Reachable(c, s, false) && m in s.net && m.Prepare? && k <= |acc| && PrepareAnswered(s, m, acc, 0)
    ensures Reachable(c, s', false) && OnlyAnswered(s, s') && PrepareAnswered(s', m, acc, k)
    ensures Leads(c, s, s', AllAnswer(m, k))
    decreases k
  {
    if k == 0 {
      s' := s;
      LeadsNowhere(c, s);
    } else {
      var s1 := AnswerPrepare(c, s, m, acc, k - 1);
      s' := AnswerOnePrepare(c, s1, m, acc, k - 1);
      AnsweredTwice(s, s1, s');
      LeadsAnswer(c, s, s1, s', m, k - 1);
    }
  }

  /** The first `k` accepters have answered PROPOSE `m`. */
  ghost predicate ProposeAnswered(s: State, m: Message, acc: seq<AccepterState>, k: nat)
    requires m.Propose? && k <= |acc|
  {
    && (forall i: nat | i < k :: i in s.accepters && s.accepters[i] == ProposeAll(acc, m)[i])
    && (forall i: nat | k <= i < |acc| :: i in s.accepters && s.accepters[i] == acc[i])
    && (forall i: nat | i < k :: ProposeReplies(acc, m)[i] in s.net)
  }

  lemma AnswerOnePropose(c: Config, s: State, m: Message, acc: seq<AccepterState>, k: nat) returns (s': State)
    requires Reachable(c, s, false) && m in s.net && m.Propose? && k < |acc| && ProposeAnswered(s, m, acc, k)
    ensures Reachable(c, s', false) && OnlyAnswered(s, s') && ProposeAnswered(s', m, acc, k + 1)
    ensures Leads(c, s, s', [AnswerStep(m, k)])
  {
    s' := DoDeliverPropose(c, s, k, m, false);
    ProposeAnsweredMore(s, s', m, acc, k);
  }

  lemma ProposeAnsweredMore(s: State, s': State, m: Message, acc: seq<AccepterState>, k: nat)
    requires m.Propose? && k < |acc| && ProposeAnswered(s, m, acc, k) && s.net <= s'.net
    requires s'.accepters == s.accepters[k := HandlePropose(s.accepters[k], k, m).0]
    requires HandlePropose(s.accepters[k], k, m).1 in s'.net
    ensures ProposeAnswered(s', m, acc, k + 1)
  {
  }

  lemma {:induction false} AnswerPropose(c: Config, s: State, m: Message, acc: seq<AccepterState>, k: nat)
    returns (s': State)
    requires Reachable(c, s, false) && m in s.net && m.Propose? && k <= |acc| && ProposeAnswered(s, m, acc, 0)
    ensures Reachable(c, s', false) && OnlyAnswered(s, s') && ProposeAnswered(s', m, acc, k)
    ensures Leads(c, s, s', AllAnswer(m, k))
    decreases k
  {
    if k == 0 {
      s' := s;
      LeadsNowhere(c, s);
    } else {
      var s1 := AnswerPropose(c, s, m, acc, k - 1);
      s' := AnswerOnePropose(c, s1, m, acc, k - 1);
      AnsweredTwice(s, s1, s');
      LeadsAnswer(c, s, s1, s', m, k - 1);
    }
  }

  // ----- reading the answers -----

  ghost function ReadOf(replies: seq<Message>, read: set<nat>): (r: map<nat, Message>)
    requires forall i | i in read :: i < |replies|
    ensures r.Keys == read
  {
    map i | i in read :: replies[i]
  }

  lemma ReadHighest(replies: seq<Message>, read: set<nat>, start: nat)
    requires forall i | i in read :: i < |replies|
    ensures HighestSeen(start, ReadOf(replies, read), Highest(replies, read, start, |replies|))
  {
    HighestAttained(replies, read, start, |replies|);
    var h := Highest(replies, read, start, |replies|);
    if h != start {
      var i: nat :| i < |replies| && i in read && replies[i].Nack? && replies[i].num == h;
      assert i in ReadOf(replies, read) && ReadOf(replies, read)[i] == replies[i];
    }
  }

  lemma ReadPositives(replies: seq<Message>, read: set<nat>)
    requires forall i | i in read :: i < |replies|
    ensures (forall i | i in read :: replies[i].Nack? || replies[i].Promise?) ==>
        |Promisers(ReadOf(replies, read))| == Positives(replies, read, |replies|)
    ensures (forall i | i in read :: replies[i].Nack? || replies[i].Accepted?) ==>
        |Accepters(ReadOf(replies, read))| == Positives(replies, read, |replies|)
  {
    PositivesCount(replies, read, |replies|);
    var good := set i: nat | i < |replies| && i in read && !replies[i].Nack?;
    if forall i | i in read :: replies[i].Nack? || replies[i].Promise? {
      assert Promisers(ReadOf(replies, read)) == good;
    }
    if forall i | i in read :: replies[i].Nack? || replies[i].Accepted? {
      assert Accepters(ReadOf(replies, read)) == good;
    }
  }

  // ----- the outcome of a round does not depend on its reply address -----

  lemma {:induction false} SameTally(as_: seq<Message>, bs: seq<Message>, read: set<nat>, start: nat, upto: nat)
    requires |as_| == |bs| && upto <= |as_|
    requires forall i: nat | i < |as_| :: as_[i].Nack? == bs[i].Nack?
    requires forall i: nat | i < |as_| && as_[i].Nack? :: as_[i].num == bs[i].num
    ensures Positives(as_, read, upto) == Positives(bs, read, upto)
    ensures Highest(as_, read, start, upto) == Highest(bs, read, start, upto)
  {
    if upto > 0 {
      SameTally(as_, bs, read, start, upto - 1);
    }
  }

  lemma PrepareAnywhere(acc: seq<AccepterState>, number: nat, read: set<nat>, r: nat, r': nat, req: Request)
    ensures PrepareRound(acc, number, read, r, req) == PrepareRound(acc, number, read, r', req)
  {
    var m, m' := Message.Prepare(r, number, req), Message.Prepare(r', number, req);
    SameTally(PrepareReplies(acc, m), PrepareReplies(acc, m'), read, number, |acc|);
    assert PrepareAll(acc, m) == PrepareAll(acc, m');
  }

  lemma ProposeAnywhere(
    acc: seq<AccepterState>, number: nat, read: set<nat>, r: nat, r': nat, req: Request, k: Option<nat>)
    ensures var m, m' := Message.Propose(r, number, req, None), Message.Propose(r', number, req, k);
            && ProposeAll(acc, m) == ProposeAll(acc, m')
            && Positives(ProposeReplies(acc, m), read, |acc|) == Positives(ProposeReplies(acc, m'), read, |acc|)
            && Highest(ProposeReplies(acc, m), read, number, |acc|)
                == Highest(ProposeReplies(acc, m'), read, number, |acc|)
  {
    var m, m' := Message.Propose(r, number, req, None), Message.Propose(r', number, req, k);
    SameTally(ProposeReplies(acc, m), ProposeReplies(acc, m'), read, number, |acc|);
    assert ProposeAll(acc, m) == ProposeAll(acc, m');
  }

  // ----- one round -----

  /** The round's PREPARE is answered by all, and what the proposer reads decides as `pr` says. */
  ghost predicate PrepareRead(
    c: Config, s: State, p: nat, at: Loop, pr: Round, replies: map<nat, Message>, highest: nat)
  {
    && Matches(c, s, pr.acc) && p in s.proposers && PhaseOf(s, p).Preparing?
    && s.proposers[p] == ProposerState(at.number, Preparing(PhaseOf(s, p).round, at.req, at.bowOut))
    && Replies(c, s, PhaseOf(s, p).round, replies) && HighestSeen(at.number, replies, highest)
    && replies.Keys == at.hears(at.round)
    && (pr.ok <==> |Promisers(replies)| >= c.Majority())
    && pr.number == if pr.ok then at.number else highest + 1
  }

  lemma PrepareReadBy(c: Config, s: State, p: nat, at: Loop, m: Message)
    returns (replies: map<nat, Message>, highest: nat)
    requires at.Ready() && |c.accepters| == |at.acc| && s.accepters.Keys == c.accepters
    requires m.Prepare? && m.num == at.number && m.req == at.req && PrepareAnswered(s, m, at.acc, |at.acc|)
    requires p in s.proposers && s.proposers[p] == ProposerState(at.number, Preparing(m.round, at.req, at.bowOut))
    ensures PrepareRead(c, s, p, at, at.Prepared(), replies, highest)
  {
    var read, acks := at.hears(at.round), PrepareReplies(at.acc, m);
    assert IsQuorumOf(read, |at.acc|);
    PrepareAnywhere(at.acc, at.number, read, at.round, m.round, at.req);
    replies, highest := ReadOf(acks, read), Highest(acks, read, at.number, |acks|);
    ReadPositives(acks, read);
    ReadHighest(acks, read, at.number);
  }

  /** The round's PROPOSE is answered by all, and what the proposer reads decides as `q` says. */
  ghost predicate ProposeRead(
    c: Config, s: State, p: nat, at: Loop, pr: Round, q: Round, m: Message, replies: map<nat, Message>, highest: nat)
    requires m.Propose?
  {
    && Matches(c, s, q.acc) && p in s.proposers && PhaseOf(s, p).Proposing? && PhaseOf(s, p).req == at.req
    && Number(s, p) == pr.number && PhaseOf(s, p).bowOut == at.RetriesAfter(pr)
    && m.num == Number(s, p) && m.req == at.req && PhaseOf(s, p).round == m.round
    && Replies(c, s, m.round, replies) && HighestSeen(m.num, replies, highest) && q.number == highest + 1
    && replies.Keys == at.hears(at.round + 1)
    && (q.ok <==> |Accepters(replies)| >= c.Majority())
    && (forall i | i in replies && replies[i].Accepted? :: replies[i].num == m.num && replies[i].req == m.req)
  }

  /** The replies a proposer reads from accepters that all answered `m`. */
  lemma ReadAccepts(c: Config, s: State, acc: seq<AccepterState>, m: Message, read: set<nat>)
    returns (replies: map<nat, Message>, highest: nat)
    requires m.Propose? && ProposeAnswered(s, m, acc, |acc|) && IsQuorumOf(read, |acc|)
        && s.accepters.Keys == c.accepters
    ensures Replies(c, s, m.round, replies) && HighestSeen(m.num, replies, highest) && replies.Keys == read
    ensures |Accepters(replies)| == Positives(ProposeReplies(acc, m), read, |acc|)
    ensures highest == Highest(ProposeReplies(acc, m), read, m.num, |acc|)
    ensures forall i | i in replies && replies[i].Accepted? :: replies[i].num == m.num && replies[i].req == m.req
  {
    var acks := ProposeReplies(acc, m);
    replies, highest := ReadOf(acks, read), Highest(acks, read, m.num, |acks|);
    ReadPositives(acks, read);
    ReadHighest(acks, read, m.num);
  }

  lemma ProposeReadBy(c: Config, s: State, p: nat, at: Loop, pr: Round, m: Message)
    returns (replies: map<nat, Message>, highest: nat)
    requires |c.accepters| == |pr.acc| && s.accepters.Keys == c.accepters
    requires IsQuorumOf(at.hears(at.round + 1), |pr.acc|)
    requires m.Propose? && m.num == pr.number && m.req == at.req && ProposeAnswered(s, m, pr.acc, |pr.acc|)
    requires p in s.proposers && PhaseOf(s, p).Proposing? && PhaseOf(s, p).req == at.req
    requires Number(s, p) == m.num && PhaseOf(s, p).round == m.round && PhaseOf(s, p).bowOut == at.RetriesAfter(pr)
    ensures ProposeRead(c, s, p, at, pr, at.Proposed(pr), m, replies, highest)
  {
    replies, highest := ReadAccepts(c, s, pr.acc, m, at.hears(at.round + 1));
    ProposedWith(at, pr, m);
    ProposeReadAs(c, s, p, at, pr, at.Proposed(pr), m, replies, highest);
  }

  lemma ProposedWith(at: Loop, pr: Round, m: Message)
    requires m.Propose? && m.num == pr.number && m.req == at.req
    ensures DecidesAs(pr.acc, at.Proposed(pr), m, at.hears(at.round + 1))
  {
    ProposeAnywhere(pr.acc, m.num, at.hears(at.round + 1), at.round + 1, m.round, at.req, m.prep);
  }

  /** The round's outcome is that of the replies to `m`. */
  ghost predicate DecidesAs(acc: seq<AccepterState>, q: Round, m: Message, read: set<nat>)
    requires m.Propose?
  {
    && q.acc == ProposeAll(acc, m)
    && (q.ok <==> Positives(ProposeReplies(acc, m), read, |acc|) >= Quorum(|acc|))
    && q.number == Highest(ProposeReplies(acc, m), read, m.num, |acc|) + 1
  }

  lemma AnsweredMatches(c: Config, s: State, m: Message, acc: seq<AccepterState>)
    requires m.Propose? && ProposeAnswered(s, m, acc, |acc|) && |c.accepters| == |acc|
    requires s.accepters.Keys == c.accepters
    ensures Matches(c, s, ProposeAll(acc, m))
  {
  }

  lemma ProposeReadAs(
    c: Config, s: State, p: nat, at: Loop, pr: Round, q: Round, m: Message, replies: map<nat, Message>, highest: nat)
    requires |c.accepters| == |pr.acc| && s.accepters.Keys == c.accepters
    requires m.Propose? && m.num == pr.number && m.req == at.req && ProposeAnswered(s, m, pr.acc, |pr.acc|)
    requires p in s.proposers && PhaseOf(s, p).Proposing? && PhaseOf(s, p).req == at.req
    requires Number(s, p) == m.num && PhaseOf(s, p).round == m.round && PhaseOf(s, p).bowOut == at.RetriesAfter(pr)
    requires DecidesAs(pr.acc, q, m, at.hears(at.round + 1))
    requires Replies(c, s, m.round, replies) && HighestSeen(m.num, replies, highest)
    requires replies.Keys == at.hears(at.round + 1)
    requires |Accepters(replies)| == Positives(ProposeReplies(pr.acc, m), at.hears(at.round + 1), |pr.acc|)
    requires highest == Highest(ProposeReplies(pr.acc, m), at.hears(at.round + 1), m.num, |pr.acc|)
    requires forall i | i in replies && replies[i].Accepted? :: replies[i].num == m.num && replies[i].req == m.req
    ensures ProposeRead(c, s, p, at, pr, q, m, replies, highest)
  {
    AnsweredMatches(c, s, m, pr.acc);
  }

  /** A quorum of ACCEPTED replies means that the request is chosen. */
  lemma ReadChosen(c: Config, s: State, round: nat, n: nat, req: Request, replies: map<nat, Message>)
    requires Replies(c, s, round, replies) && |Accepters(replies)| >= c.Majority()
    requires forall i | i in replies && replies[i].Accepted? :: replies[i].num == n && replies[i].req == req
    ensures Chosen(c, s.net, n, req)
  {
    forall i | i in Accepters(replies) ensures i in AcceptersOf(c, s.net, n, req) {
      assert replies[i] == Accepted(round, i, n, req);
    }
    SubsetSize(Accepters(replies), AcceptersOf(c, s.net, n, req));
  }
}
