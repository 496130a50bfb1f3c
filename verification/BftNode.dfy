/**
  What the consensus engine is made of: the power snapshot, the vote tables with their cached
  tallies, and the searches over them for a majority and for later rounds.
*/
module BftNode {
  import opened Bytes
  import opened BftVotes
  import E = BftEngine
  import opened BftEngine

  // ---------------------------------------------------------------------
  // The power snapshot
  // ---------------------------------------------------------------------

  /** A member of the validator set with its stake, if the pool has one. */
  datatype Member = Member(id: Validator, pendingActivation: bool, stake: Option<nat>)

  predicate Eligible(m: Member, minimum: nat) {
    !m.pendingActivation && m.stake.Some? && m.stake.value >= minimum
  }

  /** Taking out one validator takes out its stake, whichever it is. */
  lemma {:induction false} StakeWithout(power: Power, s: set<Validator>, v: Validator)
    requires v in power
    ensures Stake(power, s) == (if v in s then power[v] else 0) + Stake(power - {v}, s)
    decreases power.Keys
  {
    var k :| k in power && Stake(power, s) == (if k in s then power[k] else 0) + Stake(power - {k}, s);
    if k != v {
      StakeWithout(power - {k}, s, v);
      StakeWithout(power - {v}, s, k);
      assert power - {k} - {v} == power - {v} - {k};
    }
  }

  lemma TotalInsert(power: Power, v: Validator, stake: nat)
    requires v !in power
    ensures Total(power[v := stake]) == Total(power) + stake
  {
    var after := power[v := stake];
    StakeWithout(after, after.Keys, v);
    assert after - {v} == power;
    StakeMonotone(power, after.Keys, power.Keys);
    StakeMonotone(power, power.Keys, after.Keys);
  }

  /** `ConsensusPowerSnapshot::build`: the eligible members and their total stake. */
  method BuildSnapshot(members: seq<Member>, minimum: nat) returns (power: Power, total: nat)
    requires forall i, j :: 0 <= i < j < |members| ==> members[i].id != members[j].id
    ensures total == Total(power)
    ensures forall v :: v in power <==>
        exists i :: 0 <= i < |members| && members[i].id == v && !members[i].pendingActivation
                    && members[i].stake.Some? && members[i].stake.value >= minimum
    ensures forall i :: 0 <= i < |members| && members[i].id in power ==>
        members[i].stake == Some(power[members[i].id])
  {
    power, total := map[], 0;
    for n := 0 to |members|
      invariant total == Total(power)
      invariant forall v :: v in power <==>
          exists i :: 0 <= i < n && members[i].id == v && Eligible(members[i], minimum)
      invariant forall i :: 0 <= i < n && Eligible(members[i], minimum) ==>
          power[members[i].id] == members[i].stake.value
    {
      var m := members[n];
      if Eligible(m, minimum) {
        TotalInsert(power, m.id, m.stake.value);
        power := power[m.id := m.stake.value];
        total := total + m.stake.value;
      }
    }
  }

  // ---------------------------------------------------------------------
  // What the tables keep
  // ---------------------------------------------------------------------

  /** The votes recorded in the engine's own name are those it signed. */
  predicate OwnSigned(me: Validator, votes: Votes, signed: map<Round, Ballot>) {
    && (forall k :: k in votes.seen && k.1 == me ==> k.0 in signed)
    && (forall r :: r in signed ==> (r, me) in votes.seen)
  }

  /** Both tables' cached tallies are right. */
  ghost predicate Tallied(e: Engine) {
    e.total == Total(e.power) && Counted(e.power, e.prevotes) && Counted(e.power, e.precommits)
  }

  ghost predicate Ledger(e: Engine) {
    && Tallied(e)
    && OwnSigned(e.me, e.prevotes, e.signedPrevotes) && OwnSigned(e.me, e.precommits, e.signedPrecommits)
  }

  /** At most one ballot can have two thirds of the stake in a round. */
  lemma OneMajority(power: Power, votes: Votes, r: Round, b: Ballot, c: Ballot)
    requires Counted(power, votes)
    requires Supermajority(Total(power), PowerOf(power, votes, r, b))
        && Supermajority(Total(power), PowerOf(power, votes, r, c))
    ensures b == c
  {
    hide PowerOf;
    var vs, ws := VotersFor(votes, r, b), VotersFor(votes, r, c);
    assert BucketRight(power, votes, r, b) && BucketRight(power, votes, r, c);
    StakeUnion(power, vs, ws);
    StakeMonotone(power, vs + ws, power.Keys);
    if b != c {
      assert vs * ws == {};
      StakeOutside(power, {});
      assert false;
    }
  }

  /** A ballot with two thirds of the stake has a bucket. */
  lemma MajorityHasBucket(power: Power, votes: Votes, r: Round, b: Ballot)
    requires Counted(power, votes) && Supermajority(Total(power), PowerOf(power, votes, r, b))
    ensures (r, b) in votes.buckets
  {
    assert BucketRight(power, votes, r, b);
  }

  lemma OwnVote(power: Power, votes: Votes, signed: map<Round, Ballot>, me: Validator, r: Round, b: Ballot)
    requires Counted(power, votes) && OwnSigned(me, votes, signed) && r !in signed
    ensures Counted(power, AddVote(power, votes, r, b, me))
        && OwnSigned(me, AddVote(power, votes, r, b, me), signed[r := b])
  {
    hide Counted;
    AddVoteCounted(power, votes, r, b, me);
  }

  lemma OtherVote(power: Power, votes: Votes, signed: map<Round, Ballot>, me: Validator, r: Round, b: Ballot,
                  v: Validator)
    requires Counted(power, votes) && OwnSigned(me, votes, signed) && (r, v) !in votes.seen && v != me
    ensures Counted(power, AddVote(power, votes, r, b, v)) && OwnSigned(me, AddVote(power, votes, r, b, v), signed)
  {
    hide Counted;
    AddVoteCounted(power, votes, r, b, v);
  }

  lemma SomeVoter(s: set<(Round, Validator)>)
    requires s != {}
    ensures exists r: Round, v: Validator :: (r, v) in s
  {
    var k :| k in s;
    assert (k.0, k.1) in s;
  }

  /** One kind of vote: who voted for what, the voters per ballot, the power per ballot. */
  class VoteTable {
    var seen: map<(Round, Validator), Ballot>
    var buckets: map<(Round, Ballot), seq<Validator>>
    var tally: map<(Round, Ballot), nat>

    constructor ()
      ensures Contents() == NoVotes
    {
      seen, buckets, tally := map[], map[], map[];
    }

    function Contents(): Votes
      reads this
    {
      Votes(seen, buckets, tally)
    }

    /** Record a ballot and add its power to the cached tally. */
    method Add(power: Power, r: Round, b: Ballot, v: Validator)
      modifies this
      ensures Contents() == AddVote(power, old(Contents()), r, b, v)
    {
      seen := seen[(r, v) := b];
      buckets := buckets[(r, b) := (if (r, b) in buckets then buckets[(r, b)] else []) + [v]];
      if v in power {
        tally := tally[(r, b) := (if (r, b) in tally then tally[(r, b)] else 0) + power[v]];
      }
    }

    /** The block that two thirds of the stake voted for in a round, if any. */
    method FindMajority(power: Power, total: nat, r: Round) returns (found: Option<Hash>)
      requires total == Total(power) && Counted(power, Contents())
      ensures found.Some? ==> Supermajority(total, PowerOf(power, Contents(), r, found))
      ensures found.None? ==> forall h: Hash :: !Supermajority(total, PowerOf(power, Contents(), r, Some(h)))
    {
      hide Counted, PowerOf;
      found := None;
      var keys := buckets.Keys;
      while keys != {}
        invariant keys <= buckets.Keys
        invariant forall k :: k in buckets.Keys - keys && k.0 == r && k.1.Some? ==>
                    !Supermajority(total, PowerOf(power, Contents(), k.0, k.1))
        decreases keys
      {
        var k :| k in keys;
        if k.0 == r && k.1.Some? && Supermajority(total, PowerOf(power, Contents(), k.0, k.1)) {
          return k.1;
        }
        keys := keys - {k};
      }
      assert forall k :: k in buckets.Keys && k.0 == r && k.1.Some? ==>
          !Supermajority(total, PowerOf(power, Contents(), k.0, k.1));
      forall h: Hash ensures !Supermajority(total, PowerOf(power, Contents(), r, Some(h))) {
        if Supermajority(total, PowerOf(power, Contents(), r, Some(h))) {
          MajorityHasBucket(power, Contents(), r, Some(h));
        }
      }
    }

    /** The validators seen voting after round `r`, and the last round any vote was seen for. */
    method Later(r: Round, voters: set<Validator>, highest: Round) returns (vs: set<Validator>, top: Round)
      requires highest >= r
      ensures vs == voters + set k | k in seen && k.0 > r :: k.1
      ensures top >= highest && (forall k :: k in seen ==> k.0 <= top)
      ensures top == highest || exists k :: k in seen && k.0 == top
    {
      vs, top := voters, highest;
      var keys := seen.Keys;
      while keys != {}
        invariant keys <= seen.Keys
        invariant vs == voters + set k | k in seen.Keys - keys && k.0 > r :: k.1
        invariant top >= highest && forall k :: k in seen.Keys - keys ==> k.0 <= top
        invariant top == highest || exists k :: k in seen && k.0 == top
        decreases keys
      {
        SomeVoter(keys);
        var k :| k in keys;
        ghost var done := seen.Keys - keys;
        keys := keys - {k};
        assert seen.Keys - keys == done + {k};
        if k.0 > r {
          vs := vs + {k.1};
          if k.0 > top {
            top := k.0;
          }
        }
      }
      assert seen.Keys - keys == seen.Keys;
    }
  }

  /** The eligible stake of a set of validators. */
  method SumStake(power: Power, s: set<Validator>) returns (sum: nat)
    ensures sum == Stake(power, s)
  {
    sum := 0;
    var left := s;
    StakeOutside(power, {});
    assert s - left == {};
    while left != {}
      invariant left <= s && sum == Stake(power, s - left)
      decreases left
    {
      var v :| v in left;
      StakeAdd(power, s - left, v);
      assert s - (left - {v}) == (s - left) + {v};
      left := left - {v};
      if v in power {
        sum := sum + power[v];
      }
    }
    assert s - left == s;
  }
}
