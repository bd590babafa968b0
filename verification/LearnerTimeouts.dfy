/** A learner's entries over time: what a batch of LEARN datagrams makes of an entry, when an entry is
    dropped, and that datagrams which keep coming complete it. */
module LearnerTimeouts {
  import opened Basics
  import opened PaxosRoles

  // ----- one batch, spelled out -----

  /** How many of the datagrams are for number `n` and have the given checksum. */
  ghost function Matching(batch: seq<LearnRequest>, n: nat, crc: nat): nat
  {
    if batch == [] then 0
    else
      var d := batch[|batch| - 1];
      Matching(batch[..|batch| - 1], n, crc) + if d.num == n && d.crc == crc then 1 else 0
  }

  /** The first datagram for number `n` is at place `i`. */
  ghost predicate IsFirst(batch: seq<LearnRequest>, n: nat, i: nat)
  {
    i < |batch| && batch[i].num == n && forall j | 0 <= j < i :: batch[j].num != n
  }

  ghost predicate Mentions(batch: seq<LearnRequest>, n: nat)
  {
    exists i: nat :: i < |batch| && batch[i].num == n
  }

  /** The entry `e` with `k` more datagrams counted, the last of them at `now`. */
  ghost function Heard(e: Pending, k: nat, now: int): Pending
  {
    Pending(if k > 0 then now else e.lastSeen, e.req, e.crc, e.seen + k, e.needed)
  }

  lemma SplitLast(batch: seq<LearnRequest>)
    requires batch != []
    ensures batch == batch[..|batch| - 1] + [batch[|batch| - 1]]
  {
  }

  lemma {:induction false} Unmentioned(t: PendingTable, batch: seq<LearnRequest>, quorum: nat, now: int, n: nat)
    requires !Mentions(batch, n)
    ensures var t' := CountedAll(t, batch, quorum, now);
            (n in t' <==> n in t) && (n in t ==> t'[n] == t[n])
  {
    if batch != [] {
      var k := |batch| - 1;
      assert batch[k].num != n;
      forall i: nat | i < k ensures batch[..k][i].num != n {
        assert batch[i].num != n;
      }
      Unmentioned(t, batch[..k], quorum, now, n);
    }
  }

  lemma {:induction false} KnownCounted(t: PendingTable, batch: seq<LearnRequest>, quorum: nat, now: int, n: nat)
    requires n in t
    ensures var t' := CountedAll(t, batch, quorum, now);
            n in t' && t'[n] == Heard(t[n], Matching(batch, n, t[n].crc), now)
  {
    if batch != [] {
      KnownCounted(t, batch[..|batch| - 1], quorum, now, n);
    }
  }

  lemma {:induction false} OpenedCounted(
    t: PendingTable, batch: seq<LearnRequest>, quorum: nat, now: int, n: nat, i: nat)
    requires n !in t && IsFirst(batch, n, i)
    ensures var t' := CountedAll(t, batch, quorum, now);
            n in t' && t'[n] == Pending(now, batch[i].req, batch[i].crc, Matching(batch, n, batch[i].crc), quorum)
    ensures Matching(batch, n, batch[i].crc) > 0
  {
    var k := |batch| - 1;
    var before := batch[..k];
    if i == k {
      forall j: nat | j < |before| ensures before[j].num != n {
        assert batch[j].num != n;
      }
      Unmentioned(t, before, quorum, now, n);
      NoneMatching(before, n, batch[i].crc);
    } else {
      assert IsFirst(before, n, i);
      OpenedCounted(t, before, quorum, now, n, i);
    }
  }

  lemma {:induction false} NoneMatching(batch: seq<LearnRequest>, n: nat, crc: nat)
    requires !Mentions(batch, n)
    ensures Matching(batch, n, crc) == 0
  {
    if batch != [] {
      var k := |batch| - 1;
      assert batch[k].num != n;
      forall i: nat | i < k ensures batch[..k][i].num != n {
        assert batch[i].num != n;
      }
      NoneMatching(batch[..k], n, crc);
    }
  }

  /** What a batch makes of every number: numbers it does not mention stay as they were; a known entry
      counts the datagrams with its checksum and is refreshed by them; a new number gets an entry for the
      request of its first datagram, with the quorum it needs. */
  lemma BatchCounts(t: PendingTable, batch: seq<LearnRequest>, quorum: nat, now: int, n: nat)
    ensures var t' := CountedAll(t, batch, quorum, now);
            && (!Mentions(batch, n) ==> (n in t' <==> n in t) && (n in t ==> t'[n] == t[n]))
            && (n in t ==> n in t' && t'[n] == Heard(t[n], Matching(batch, n, t[n].crc), now))
            && (forall i: nat | n !in t && IsFirst(batch, n, i) ::
                  n in t'
                  && t'[n] == Pending(now, batch[i].req, batch[i].crc, Matching(batch, n, batch[i].crc), quorum))
  {
    if !Mentions(batch, n) {
      Unmentioned(t, batch, quorum, now, n);
    }
    if n in t {
      KnownCounted(t, batch, quorum, now, n);
    }
    forall i: nat | n !in t && IsFirst(batch, n, i)
      ensures n in CountedAll(t, batch, quorum, now)
      ensures CountedAll(t, batch, quorum, now)[n]
          == Pending(now, batch[i].req, batch[i].crc, Matching(batch, n, batch[i].crc), quorum)
    {
      OpenedCounted(t, batch, quorum, now, n, i);
    }
  }

  // ----- one round -----

  /** One turn of the learner's loop: the datagrams are counted at `now`, the dead entries dropped at
      `later`, and the lowest entry learned if it is complete. */
  datatype Round = Round(batch: seq<LearnRequest>, now: int, later: int)

  ghost function CountedIn(t: PendingTable, r: Round, quorum: nat): PendingTable
  {
    CountedAll(t, r.batch, quorum, r.now)
  }

  ghost function Cleaned(t: PendingTable, r: Round, quorum: nat, timeout: int): PendingTable
  {
    CountedIn(t, r, quorum) - Dead(CountedIn(t, r, quorum), r.later, timeout)
  }

  /** The numbers learned: at most the lowest, if it is complete. */
  ghost function LearnedNow(t: PendingTable): set<nat>
  {
    set n | n in t && IsLowest(t, n) && t[n].Complete()
  }

  ghost function AfterRound(t: PendingTable, r: Round, quorum: nat, timeout: int): PendingTable
  {
    Cleaned(t, r, quorum, timeout) - LearnedNow(Cleaned(t, r, quorum, timeout))
  }

  /** `event_task` of a learner. */
  method EventTask(learner: Learner, r: Round, quorum: nat, timeout: int) returns (learned: Option<Request>)
    modifies learner
    ensures learner.pending == AfterRound(old(learner.pending), r, quorum, timeout)
    ensures forall n | n in LearnedNow(Cleaned(old(learner.pending), r, quorum, timeout)) ::
        learned == Some(Cleaned(old(learner.pending), r, quorum, timeout)[n].req)
    ensures LearnedNow(Cleaned(old(learner.pending), r, quorum, timeout)) == {} ==> learned == None
  {
    learner.CountBatch(r.batch, quorum, r.now);
    learner.CleanupDeadRequests(r.later, timeout);
    ghost var t := learner.pending;
    assert t == Cleaned(old(learner.pending), r, quorum, timeout);
    learned := learner.LearnCompletedRequests();
    LearnedIs(t, learner.pending, learned);
  }

  lemma LearnedIs(t: PendingTable, t': PendingTable, learned: Option<Request>)
    requires t == map[] ==> learned == None && t' == t
    requires forall n | IsLowest(t, n) ::
        if t[n].Complete() then learned == Some(t[n].req) && t' == t - {n} else learned == None && t' == t
    ensures t' == t - LearnedNow(t) && (LearnedNow(t) == {} ==> learned == None)
    ensures forall n | n in LearnedNow(t) :: learned == Some(t[n].req)
  {
    if t != map[] {
      var low := SomeLowest(t);
      OnlyLowest(t);
      assert LearnedNow(t) == if t[low].Complete() then {low} else {};
    }
  }

  lemma OnlyLowest(t: PendingTable)
    ensures forall m, n | IsLowest(t, m) && IsLowest(t, n) :: m == n
  {
  }

  lemma {:induction false} SomeLowest(t: PendingTable) returns (low: nat)
    requires t != map[]
    ensures IsLowest(t, low)
    decreases |t|
  {
    var n :| n in t;
    var rest := t - {n};
    assert rest.Keys == t.Keys - {n};
    if rest == map[] {
      low := n;
      assert forall k | k in t :: k == n || k in rest;
    } else {
      low := SomeLowest(rest);
      low := if n < low then n else low;
      assert forall k | k in t :: k == n || k in rest;
    }
  }

  /** A number a datagram was counted for in a round survives the round's cleanup, if that comes within
      the timeout, with its count. */
  lemma CountedSurvives(t: PendingTable, r: Round, quorum: nat, timeout: int, n: nat)
    requires r.later - r.now <= timeout
    requires n in t ==> Matching(r.batch, n, t[n].crc) > 0
    requires n !in t ==> Mentions(r.batch, n)
    ensures n in CountedIn(t, r, quorum) && n in Cleaned(t, r, quorum, timeout)
    ensures Cleaned(t, r, quorum, timeout)[n] == CountedIn(t, r, quorum)[n]
  {
    BatchCounts(t, r.batch, quorum, r.now, n);
    if n !in t {
      var i := FirstPlace(r.batch, n);
    }
  }

  lemma {:induction false} FirstPlace(batch: seq<LearnRequest>, n: nat) returns (i: nat)
    requires Mentions(batch, n)
    ensures IsFirst(batch, n, i)
  {
    var k := |batch| - 1;
    if Mentions(batch[..k], n) {
      i := FirstPlace(batch[..k], n);
      assert forall j | 0 <= j < i :: batch[..k][j] == batch[j];
    } else {
      i := k;
      forall j: nat | j < k ensures batch[j].num != n {
        assert batch[..k][j] == batch[j];
      }
      var m: nat :| m < |batch| && batch[m].num == n;
    }
  }

  // ----- runs of rounds -----

  ghost function AfterAll(t: PendingTable, rs: seq<Round>, quorum: nat, timeout: int): PendingTable
  {
    if rs == [] then t
    else AfterRound(AfterAll(t, rs[..|rs| - 1], quorum, timeout), rs[|rs| - 1], quorum, timeout)
  }

  /** A datagram for `n` came in a round at time `at`. */
  ghost predicate CameAt(rs: seq<Round>, n: nat, at: int)
  {
    exists i: nat :: i < |rs| && rs[i].now == at && Mentions(rs[i].batch, n)
  }

  lemma {:induction false} SeenWhenHeard(rs: seq<Round>, quorum: nat, timeout: int, n: nat)
    requires n in AfterAll(map[], rs, quorum, timeout)
    ensures CameAt(rs, n, AfterAll(map[], rs, quorum, timeout)[n].lastSeen)
  {
    if rs != [] {
      var k := |rs| - 1;
      var t := AfterAll(map[], rs[..k], quorum, timeout);
      BatchCounts(t, rs[k].batch, quorum, rs[k].now, n);
      if n in t {
        SeenWhenHeard(rs[..k], quorum, timeout, n);
        if Matching(rs[k].batch, n, t[n].crc) > 0 {
          if !Mentions(rs[k].batch, n) {
            NoneMatching(rs[k].batch, n, t[n].crc);
          }
        } else {
          var i: nat :| i < k && rs[..k][i].now == t[n].lastSeen && Mentions(rs[..k][i].batch, n);
          assert rs[i] == rs[..k][i];
        }
      } else {
        var i := FirstPlace(rs[k].batch, n);
      }
    }
  }

  /** An entry still short of its quorum after a round's cleanup got a datagram within the timeout: one
      that heard nothing for longer is gone. */
  lemma SilentAreGone(rs: seq<Round>, quorum: nat, timeout: int, n: nat)
    requires rs != [] && n in AfterAll(map[], rs, quorum, timeout)
    requires AfterAll(map[], rs, quorum, timeout)[n].seen < AfterAll(map[], rs, quorum, timeout)[n].needed
    ensures exists at :: CameAt(rs, n, at) && rs[|rs| - 1].later - at <= timeout
  {
    SeenWhenHeard(rs, quorum, timeout, n);
    var t := AfterAll(map[], rs[..|rs| - 1], quorum, timeout);
    assert n in Cleaned(t, rs[|rs| - 1], quorum, timeout);
  }

  // ----- datagrams that keep coming -----

  /** How many datagrams for the number came, with that checksum. */
  ghost function Total(rs: seq<Round>, n: nat, crc: nat): nat
  {
    if rs == [] then 0 else Total(rs[..|rs| - 1], n, crc) + Matching(rs[|rs| - 1].batch, n, crc)
  }

  /** When the last of them came. */
  ghost function LastCame(rs: seq<Round>, n: nat, crc: nat): int
  {
    if rs == [] then 0
    else if Matching(rs[|rs| - 1].batch, n, crc) > 0 then rs[|rs| - 1].now
    else LastCame(rs[..|rs| - 1], n, crc)
  }

  /** The first round brings the number; no cleanup comes more than the timeout after the last datagram. */
  ghost predicate KeepsComing(rs: seq<Round>, n: nat, first: LearnRequest, timeout: int)
  {
    && rs != [] && (exists i: nat :: IsFirst(rs[0].batch, n, i) && rs[0].batch[i] == first)
    && forall k: nat | 0 < k <= |rs| :: rs[k - 1].later - LastCame(rs[..k], n, first.crc) <= timeout
  }

  lemma KeepsComingBefore(rs: seq<Round>, n: nat, first: LearnRequest, timeout: int)
    requires KeepsComing(rs, n, first, timeout) && |rs| > 1
    ensures KeepsComing(rs[..|rs| - 1], n, first, timeout)
  {
    var before := rs[..|rs| - 1];
    forall k: nat | 0 < k <= |before| ensures before[k - 1].later - LastCame(before[..k], n, first.crc) <= timeout {
      assert before[..k] == rs[..k];
    }
  }

  ghost function Entry(rs: seq<Round>, n: nat, first: LearnRequest, quorum: nat): Pending
  {
    Pending(LastCame(rs, n, first.crc), first.req, first.crc, Total(rs, n, first.crc), quorum)
  }

  /** Until the quorum is there, the entry stays and counts every datagram. */
  lemma {:induction false} EntryKept(
    t: PendingTable, rs: seq<Round>, n: nat, first: LearnRequest, quorum: nat, timeout: int)
    requires n !in t && KeepsComing(rs, n, first, timeout) && Total(rs[..|rs| - 1], n, first.crc) < quorum
    ensures var before := AfterAll(t, rs[..|rs| - 1], quorum, timeout);
            var counted := CountedIn(before, rs[|rs| - 1], quorum);
            n in counted && counted[n] == Entry(rs, n, first, quorum)
    ensures Total(rs, n, first.crc) < quorum ==>
        n in AfterAll(t, rs, quorum, timeout) && AfterAll(t, rs, quorum, timeout)[n] == Entry(rs, n, first, quorum)
    decreases |rs|
  {
    var k := |rs| - 1;
    var before := AfterAll(t, rs[..k], quorum, timeout);
    if k == 0 {
      var i: nat :| IsFirst(rs[0].batch, n, i) && rs[0].batch[i] == first;
      OpenedCounted(t, rs[0].batch, quorum, rs[0].now, n, i);
      assert rs[..0] == [];
    } else {
      KeepsComingBefore(rs, n, first, timeout);
      TotalGrows(rs[..k], n, first.crc);
      EntryKept(t, rs[..k], n, first, quorum, timeout);
      KnownCounted(before, rs[k].batch, quorum, rs[k].now, n);
    }
    NotDropped(before, rs, n, first, quorum, timeout);
  }

  lemma TotalGrows(rs: seq<Round>, n: nat, crc: nat)
    requires rs != []
    ensures Total(rs[..|rs| - 1], n, crc) <= Total(rs, n, crc)
  {
  }

  lemma NotDropped(before: PendingTable, rs: seq<Round>, n: nat, first: LearnRequest, quorum: nat, timeout: int)
    requires KeepsComing(rs, n, first, timeout)
    requires var counted := CountedIn(before, rs[|rs| - 1], quorum);
             n in counted && counted[n] == Entry(rs, n, first, quorum)
    ensures Total(rs, n, first.crc) < quorum ==>
        var after := AfterRound(before, rs[|rs| - 1], quorum, timeout);
        n in after && after[n] == Entry(rs, n, first, quorum)
  {
    assert rs[..|rs|] == rs;
    assert rs[|rs| - 1].later - LastCame(rs[..|rs|], n, first.crc) <= timeout;
  }

  /** A quorum of datagrams for one request, never the timeout apart, completes its entry: at the end of
      some round's counting it has all it needs. */
  lemma {:induction false} KeptComingCompletes(
    t: PendingTable, rs: seq<Round>, n: nat, first: LearnRequest, quorum: nat, timeout: int) returns (k: nat)
    requires n !in t && KeepsComing(rs, n, first, timeout) && Total(rs, n, first.crc) >= quorum > 0
    ensures k < |rs|
    ensures var counted := CountedIn(AfterAll(t, rs[..k], quorum, timeout), rs[k], quorum);
            n in counted && counted[n].req == first.req && counted[n].seen >= counted[n].needed == quorum
    decreases |rs|
  {
    var m := |rs| - 1;
    if Total(rs[..m], n, first.crc) >= quorum {
      assert m > 0;
      KeepsComingBefore(rs, n, first, timeout);
      k := KeptComingCompletes(t, rs[..m], n, first, quorum, timeout);
      assert rs[..m][..k] == rs[..k];
    } else {
      EntryKept(t, rs, n, first, quorum, timeout);
      k := m;
    }
  }
}
