/** The messages of the replication protocol, and the accepter and learner objects that handle them. */
module PaxosRoles {
  import opened Basics

  /** The retry counter at which a proposer bows out. */
  const BOW_OUT := 42

  /** A client's write request, as it travels inside protocol messages. */
  datatype Request = Request(operation: string, args: seq<string>, clientId: string, requestId: nat)

  /** `round` is the reply address: every call of `prepare` or `propose` opens its own sockets, so an
      acknowledgement reaches exactly the call that caused it.  `prep` in a PROPOSE is a history
      variable: the round of the successful `prepare` that led to it, None after the fall-through. */
  datatype Message =
    | Prepare(round: nat, num: nat, req: Request)
    | Propose(round: nat, num: nat, req: Request, prep: Option<nat>)
    | Promise(round: nat, from: nat, num: nat)
    | Accepted(round: nat, from: nat, num: nat, req: Request)
    | Nack(round: nat, from: nat, num: nat)

  datatype AccepterState = AccepterState(promised: nat, accepted: nat)

  /** What an accepter does with PREPARE: promise a number above every earlier one, or refuse. */
  function HandlePrepare(s: AccepterState, me: nat, m: Message): (r: (AccepterState, Message))
    requires m.Prepare?
    ensures r.0.promised >= s.promised && r.0.accepted == s.accepted
    ensures r.1.Promise? <==> m.num > s.promised
  {
    if m.num <= s.promised then (s, Nack(m.round, me, s.promised))
    else (s.(promised := m.num), Promise(m.round, me, m.num))
  }

  /** What an accepter does with PROPOSE: accept only the promised number, and only once. */
  function HandlePropose(s: AccepterState, me: nat, m: Message): (r: (AccepterState, Message))
    requires m.Propose?
    ensures r.0.promised == s.promised && r.0.accepted >= s.accepted
    ensures r.1.Accepted? <==> s.promised == m.num > s.accepted
  {
    if m.num != s.promised || m.num <= s.accepted then (s, Nack(m.round, me, s.promised))
    else (s.(accepted := s.promised), Accepted(m.round, me, m.num, m.req))
  }

  class Accepter {
    const me: nat
    var promisedProposalNum: nat
    var acceptedProposalNum: nat

    ghost function State(): AccepterState
      reads this
    {
      AccepterState(promisedProposalNum, acceptedProposalNum)
    }

    constructor (id: nat)
      ensures me == id && State() == AccepterState(0, 0)
    {
      me, promisedProposalNum, acceptedProposalNum := id, 0, 0;
    }

    method Nack(m: Message) returns (ack: Message)
      ensures ack == Message.Nack(m.round, me, promisedProposalNum)
    {
      ack := Message.Nack(m.round, me, promisedProposalNum);
    }

    method Promise(m: Message) returns (ack: Message)
      requires m.Prepare?
      modifies this`promisedProposalNum
      ensures (State(), ack) == HandlePrepare(old(State()), me, m)
    {
      if m.num <= promisedProposalNum {
        ack := Nack(m);
        return;
      }
      promisedProposalNum := m.num;
      ack := Message.Promise(m.round, me, promisedProposalNum);
    }

    /** `learn` says whether the request is now broadcast to the learners. */
    method Accept(m: Message) returns (ack: Message, learn: bool)
      requires m.Propose?
      modifies this`acceptedProposalNum
      ensures (State(), ack) == HandlePropose(old(State()), me, m)
      ensures learn == ack.Accepted?
    {
      if m.num != promisedProposalNum || m.num <= acceptedProposalNum {
        ack := Nack(m);
        learn := false;
        return;
      }
      acceptedProposalNum := promisedProposalNum;
      ack := Accepted(m.round, me, acceptedProposalNum, m.req);
      learn := true;
    }
  }

  /** One entry of the learner's table of requests it is still counting. */
  datatype Pending = Pending(lastSeen: int, req: Request, crc: nat, seen: nat, needed: nat) {
    predicate Complete() { seen >= needed }
  }

  type PendingTable = map<nat, Pending>

  /** A LEARN datagram as the learner's queue holds it. */
  datatype LearnRequest = LearnRequest(num: nat, req: Request, crc: nat)

  /** The table after counting one LEARN: a missing entry is opened first, and the count moves only
      when the checksum equals that of the entry's request. */
  function Counted(t: PendingTable, d: LearnRequest, quorum: nat, now: int): (r: PendingTable)
    ensures r.Keys == t.Keys + {d.num}
    ensures forall n | n in t && n != d.num :: r[n] == t[n]
  {
    var e := if d.num in t then t[d.num] else Pending(now, d.req, d.crc, 0, quorum);
    t[d.num := if d.crc == e.crc then e.(lastSeen := now, seen := e.seen + 1) else e]
  }

  function CountedAll(t: PendingTable, batch: seq<LearnRequest>, quorum: nat, now: int): PendingTable
  {
    if batch == [] then t
    else Counted(CountedAll(t, batch[..|batch| - 1], quorum, now), batch[|batch| - 1], quorum, now)
  }

  lemma OneMore(t: PendingTable, batch: seq<LearnRequest>, i: nat, quorum: nat, now: int)
    requires i < |batch|
    ensures CountedAll(t, batch[..i + 1], quorum, now)
         == Counted(CountedAll(t, batch[..i], quorum, now), batch[i], quorum, now)
  {
    assert batch[..i + 1][..i] == batch[..i];
  }

  /** Numbers whose count stopped short and whose last datagram is older than the timeout. */
  function Dead(t: PendingTable, now: int, timeout: int): set<nat>
  {
    set n | n in t && !t[n].Complete() && now - t[n].lastSeen > timeout
  }

  predicate IsLowest(t: PendingTable, n: nat)
  {
    n in t && forall k | k in t :: n <= k
  }

  class Learner {
    var pending: PendingTable

    constructor ()
      ensures pending == map[]
    {
      pending := map[];
    }

    /** One datagram: a first one for its number opens an entry, and one with the entry's checksum counts. */
    method Count(d: LearnRequest, quorum: nat, now: int)
      modifies this
      ensures pending == Counted(old(pending), d, quorum, now)
    {
      if d.num !in pending {
        pending := pending[d.num := Pending(now, d.req, d.crc, 0, quorum)];
      }
      var e := pending[d.num];
      if d.crc == e.crc {
        pending := pending[d.num := e.(lastSeen := now, seen := e.seen + 1)];
      }
    }

    /** The counting loop of `event_task` over the queued datagrams. */
    method CountBatch(batch: seq<LearnRequest>, quorum: nat, now: int)
      modifies this
      ensures pending == CountedAll(old(pending), batch, quorum, now)
    {
      var i := 0;
      while i < |batch|
        invariant i <= |batch|
        invariant pending == CountedAll(old(pending), batch[..i], quorum, now)
      {
        OneMore(old(pending), batch, i, quorum, now);
        Count(batch[i], quorum, now);
        i := i + 1;
      }
      assert batch[..i] == batch;
    }

    method CleanupDeadRequests(now: int, timeout: int)
      modifies this
      ensures pending == old(pending) - Dead(old(pending), now, timeout)
      ensures forall n :: n in pending <==>
          n in old(pending)
          && (old(pending)[n].seen >= old(pending)[n].needed || now - old(pending)[n].lastSeen <= timeout)
      ensures forall n | n in pending :: pending[n] == old(pending)[n]
    {
      var left := pending.Keys;
      var dead := {};
      while left != {}
        invariant left <= old(pending).Keys
        invariant dead == Dead(old(pending), now, timeout) - left
        invariant pending == old(pending) - dead
        decreases left
      {
        var n :| n in left;
        if !pending[n].Complete() && now - pending[n].lastSeen > timeout {
          pending := pending - {n};
          dead := dead + {n};
        }
        left := left - {n};
      }
      assert dead == Dead(old(pending), now, timeout);
    }

    /** Only the lowest pending number is looked at. */
    method LearnCompletedRequests() returns (learned: Option<Request>)
      modifies this
      ensures old(pending) == map[] ==> learned == None && pending == old(pending)
      ensures forall n | IsLowest(old(pending), n) ::
          if old(pending)[n].Complete()
          then learned == Some(old(pending)[n].req) && pending == old(pending) - {n}
          else learned == None && pending == old(pending)
    {
      learned := None;
      if pending == map[] {
        return;
      }
      var low := Lowest();
      if pending[low].Complete() {
        learned := Some(pending[low].req);
        pending := pending - {low};
      }
    }

    method Lowest() returns (low: nat)
      requires pending != map[]
      ensures IsLowest(pending, low)
    {
      var left := pending.Keys;
      low :| low in left;
      left := left - {low};
      while left != {}
        invariant left <= pending.Keys && low in pending
        invariant forall k | k in pending && k !in left :: low <= k
        decreases left
      {
        var k :| k in left;
        if k < low {
          low := k;
        }
        left := left - {k};
      }
    }
  }
}
