/** The retry bound is exact: with more than 102 accepters, some promises and some order of replies use up
    all retries of a lone proposer. */
module PaxosExhaustion {
  import opened Basics
  import opened Quorums
  import opened PaxosRoles
  import opened PaxosProgress

  ghost function Stair(n: nat, level: nat, i: nat): AccepterState
  {
    var held: nat := if i < Quorum(n) then 0 else i - Quorum(n) + 1;
    AccepterState(if held > level then held else level, 0)
  }

  /** Accepters below the quorum size start fresh, the others hold the promises 1, 2, 3, ...; all have
      since promised at least `level`. */
  ghost function Staircase(n: nat, level: nat): (acc: seq<AccepterState>)
    ensures |acc| == n && forall i | 0 <= i < n :: acc[i] == Stair(n, level, i)
  {
    seq(n, i requires 0 <= i < n => Stair(n, level, i))
  }

  /** The level all accepters have reached when round `t` begins. */
  ghost function LevelBefore(t: nat): nat
  {
    if t == 0 then 0 else t - 1
  }

  /** Round 0 hears the fresh accepters; round t hears all but one of them, and the holder of promise t. */
  ghost function Unlucky(n: nat, round: nat): set<nat>
  {
    if round == 0 || Quorum(n) + round > n || Quorum(n) == 0 then First(Quorum(n))
    else First(Quorum(n) - 1) + {Quorum(n) + round - 1}
  }

  lemma UnluckyIsQuorum(n: nat, round: nat)
    requires n > 0
    ensures IsQuorumOf(Unlucky(n, round), n)
  {
  }

  /** In round `t` a NACK carrying exactly `t` is read, so the loop moves on to number t + 1. */
  lemma UnluckyRound(n: nat, t: nat, req: Request)
    requires n > 0 && t <= n - Quorum(n)
    ensures PrepareRound(Staircase(n, LevelBefore(t)), t, Unlucky(n, t), t, req)
         == Round(Staircase(n, t), false, t + 1)
  {
    var acc := Staircase(n, LevelBefore(t));
    var m := Message.Prepare(t, t, req);
    var replies := PrepareReplies(acc, m);
    assert PrepareAll(acc, m) == Staircase(n, t);
    UnluckyIsQuorum(n, t);
    var nacker := UnluckyReplies(n, t, m);
    FailsIffNack(replies, Unlucky(n, t));
    HighestExact(replies, Unlucky(n, t), t, |replies|);
  }

  /** Of the replies read one is a NACK, and no NACK carries more than `t`. */
  lemma UnluckyReplies(n: nat, t: nat, m: Message) returns (nacker: nat)
    requires n > 0 && t <= n - Quorum(n) && m.Prepare? && m.num == t
    ensures var replies := PrepareReplies(Staircase(n, LevelBefore(t)), m);
            && nacker < n && nacker in Unlucky(n, t) && replies[nacker].Nack?
            && forall i | i in Unlucky(n, t) :: i < n && (replies[i].Nack? ==> replies[i].num <= t)
  {
    UnluckyIsQuorum(n, t);
    var acc := Staircase(n, LevelBefore(t));
    nacker := if t == 0 then 0 else Quorum(n) + t - 1;
    assert acc[nacker] == Stair(n, LevelBefore(t), nacker);
    forall i | i in Unlucky(n, t)
      ensures i < n && (PrepareReplies(acc, m)[i].Nack? ==> PrepareReplies(acc, m)[i].num <= t)
    {
      assert acc[i] == Stair(n, LevelBefore(t), i);
    }
  }

  lemma {:induction false} HighestExact(replies: seq<Message>, read: set<nat>, start: nat, upto: nat)
    requires upto <= |replies|
    requires forall i | i in read && i < upto && replies[i].Nack? :: replies[i].num <= start
    ensures Highest(replies, read, start, upto) == start
  {
    if upto > 0 {
      HighestExact(replies, read, start, upto - 1);
    }
  }

  /** The unprepared `propose` after the last failed `prepare` finds nobody who promised its number. */
  lemma UnluckyPropose(n: nat, t: nat, req: Request)
    requires Quorum(n) > 1 && t <= n - Quorum(n)
    ensures !ProposeRound(Staircase(n, t), t + 1, Unlucky(n, t + 1), t + 1, req).ok
  {
    var replies := ProposeReplies(Staircase(n, t), Message.Propose(t + 1, t + 1, req, None));
    UnluckyIsQuorum(n, t + 1);
    assert 0 in Unlucky(n, t + 1) && Staircase(n, t)[0] == Stair(n, t, 0);
    assert replies[0].Nack?;
    FailsIffNack(replies, Unlucky(n, t + 1));
  }

  lemma UnluckyOracle(n: nat) returns (hears: nat -> set<nat>)
    requires n > 0
    ensures Delivers(hears, n) && forall k: nat {:trigger Unlucky(n, k)} :: hears(k) == Unlucky(n, k)
  {
    hears := k => Unlucky(n, k);
    forall k: nat ensures IsQuorumOf(hears(k), n) {
      UnluckyIsQuorum(n, k);
    }
  }

  lemma StaircaseWellFormed(n: nat, level: nat)
    requires n > 0
    ensures WellFormed(Staircase(n, level))
  {
  }

  /** The loop, started in this state, gives up. */
  ghost predicate Hopeless(at: Loop)
  {
    at.Ready() && forall o | Comes(at, o) :: !o.accepted
  }

  lemma HopelessAgain(at: Loop)
    requires at.Ready() && at.bowOut < BOW_OUT && !at.Prepared().ok && Hopeless(at.Unprepared(at.Prepared()))
    ensures Hopeless(at)
  {
    var next := at.Unprepared(at.Prepared());
    assert Comes(next, Retry(next));
  }

  lemma HopelessNow(at: Loop)
    requires at.Ready() && at.bowOut >= BOW_OUT && !at.Prepared().ok && !at.Proposed(at.Prepared()).ok
    ensures Hopeless(at)
  {
  }

  /** The loop in round `k` of a chain of accepter states. */
  ghost function At(chain: nat -> seq<AccepterState>, hears: nat -> set<nat>, req: Request, k: nat): Loop
  {
    Loop(chain(k), k, k + 1, k, hears, req)
  }

  /** Round `k` fails and takes the accepters from one state of the chain to the next. */
  ghost predicate Falls(chain: nat -> seq<AccepterState>, n: nat, hears: nat -> set<nat>, req: Request, k: nat)
  {
    && |chain(k)| == n && WellFormed(chain(k))
    && PrepareRound(chain(k), k, hears(k), k, req) == Round(chain(k + 1), false, k + 1)
  }

  /** A chain of failures that lasts until the retries are used up leaves no hope at any of its states. */
  lemma {:induction false} ChainHopeless(
    chain: nat -> seq<AccepterState>, n: nat, hears: nat -> set<nat>, req: Request, t: nat)
    requires Delivers(hears, n) && t < BOW_OUT
    requires forall k: nat | k < BOW_OUT :: Falls(chain, n, hears, req, k)
    requires !ProposeRound(chain(BOW_OUT), BOW_OUT, hears(BOW_OUT), BOW_OUT, req).ok
    ensures Hopeless(At(chain, hears, req, t))
    decreases BOW_OUT - t
  {
    if t + 1 < BOW_OUT {
      ChainHopeless(chain, n, hears, req, t + 1);
    }
    FallsHopeless(chain, n, hears, req, t);
  }

  lemma FallsHopeless(chain: nat -> seq<AccepterState>, n: nat, hears: nat -> set<nat>, req: Request, t: nat)
    requires Delivers(hears, n) && t < BOW_OUT && Falls(chain, n, hears, req, t)
    requires if t + 1 < BOW_OUT then Hopeless(At(chain, hears, req, t + 1))
             else !ProposeRound(chain(t + 1), t + 1, hears(t + 1), t + 1, req).ok
    ensures Hopeless(At(chain, hears, req, t))
  {
    var at := At(chain, hears, req, t);
    assert at.Prepared() == Round(chain(t + 1), false, t + 1);
    if t + 1 < BOW_OUT {
      assert at.Unprepared(at.Prepared()) == At(chain, hears, req, t + 1);
      HopelessAgain(at);
    } else {
      HopelessNow(at);
    }
  }

  lemma UnluckyFalls(n: nat, chain: nat -> seq<AccepterState>, hears: nat -> set<nat>, req: Request, k: nat)
    requires n > 0 && k <= n - Quorum(n) && hears(k) == Unlucky(n, k)
    requires chain(k) == Staircase(n, LevelBefore(k)) && chain(k + 1) == Staircase(n, k)
    ensures Falls(chain, n, hears, req, k)
  {
    StaircaseWellFormed(n, LevelBefore(k));
    UnluckyRound(n, k, req);
  }

  lemma UnluckyLast(n: nat, chain: nat -> seq<AccepterState>, hears: nat -> set<nat>, req: Request)
    requires n - Quorum(n) >= BOW_OUT - 1 && hears(BOW_OUT) == Unlucky(n, BOW_OUT)
    requires chain(BOW_OUT) == Staircase(n, BOW_OUT - 1)
    ensures !ProposeRound(chain(BOW_OUT), BOW_OUT, hears(BOW_OUT), BOW_OUT, req).ok
  {
    UnluckyPropose(n, BOW_OUT - 1, req);
  }

  lemma UnluckyRun(n: nat, chain: nat -> seq<AccepterState>, hears: nat -> set<nat>, req: Request)
    requires n - Quorum(n) >= BOW_OUT - 1 && forall k: nat :: chain(k) == Staircase(n, LevelBefore(k))
    requires forall k: nat {:trigger Unlucky(n, k)} :: hears(k) == Unlucky(n, k)
    ensures forall k: nat | k < BOW_OUT :: Falls(chain, n, hears, req, k)
  {
    forall k: nat | k < BOW_OUT ensures Falls(chain, n, hears, req, k) {
      assert hears(k) == Unlucky(n, k);
      UnluckyFalls(n, chain, hears, req, k);
    }
  }

  lemma UnluckyHopeless(n: nat, req: Request) returns (acc: seq<AccepterState>, hears: nat -> set<nat>)
    requires n - Quorum(n) > BOW_OUT - 2
    ensures acc == Staircase(n, 0) && Hopeless(Loop(acc, 0, 1, 0, hears, req))
  {
    var chain := (k: nat) => Staircase(n, LevelBefore(k));
    acc := chain(0);
    hears := UnluckyOracle(n);
    assert hears(BOW_OUT) == Unlucky(n, BOW_OUT);
    UnluckyRun(n, chain, hears, req);
    UnluckyLast(n, chain, hears, req);
    ChainHopeless(chain, n, hears, req, 0);
  }

  /** With 103 accepters or more, some promises and some order of replies make the loop give up. */
  lemma LargeMembershipCanFail(n: nat, req: Request) returns (at: Loop)
    requires n - Quorum(n) > BOW_OUT - 2
    ensures at.acc == Staircase(n, 0) && at.number == 0 && at.bowOut == 1 && at.round == 0 && at.req == req
    ensures at.Ready() && !Retry(at).accepted
  {
    var acc, hears := UnluckyHopeless(n, req);
    at := Loop(acc, 0, 1, 0, hears, req);
    assert Comes(at, Retry(at));
  }
}
