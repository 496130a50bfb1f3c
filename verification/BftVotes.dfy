/**
  Stake-weighted voting: who voted for what, the cached tallies, and why two
  supermajorities share an honest validator.
*/
module BftVotes {
  import opened Bytes

  type Validator = nat
  type Hash = nat
  type Round = nat

  /** Eligible validators and their stake, frozen for the height. */
  type Power = map<Validator, nat>

  // ---------------------------------------------------------------------
  // Stake of a set of validators
  // ---------------------------------------------------------------------

  /** Total stake of the eligible members of `s`. */
  ghost function Stake(power: Power, s: set<Validator>): nat
    decreases power.Keys
  {
    if power.Keys == {} then 0
    else
      var v :| v in power;
      (if v in s then power[v] else 0) + Stake(power - {v}, s)
  }

  lemma {:induction false} StakeUnion(power: Power, a: set<Validator>, b: set<Validator>)
    ensures Stake(power, a + b) + Stake(power, a * b) == Stake(power, a) + Stake(power, b)
    decreases power.Keys
  {
    if power.Keys != {} {
      var v :| v in power && Stake(power, a) == (if v in a then power[v] else 0) + Stake(power - {v}, a)
                          && Stake(power, b) == (if v in b then power[v] else 0) + Stake(power - {v}, b)
                          && Stake(power, a + b) == (if v in a + b then power[v] else 0) + Stake(power - {v}, a + b)
                          && Stake(power, a * b) == (if v in a * b then power[v] else 0) + Stake(power - {v}, a * b);
      StakeUnion(power - {v}, a, b);
    }
  }

  lemma {:induction false} StakeMonotone(power: Power, a: set<Validator>, b: set<Validator>)
    requires forall v :: v in a && v in power ==> v in b
    ensures Stake(power, a) <= Stake(power, b)
    decreases power.Keys
  {
    if power.Keys != {} {
      var v :| v in power && Stake(power, a) == (if v in a then power[v] else 0) + Stake(power - {v}, a)
                          && Stake(power, b) == (if v in b then power[v] else 0) + Stake(power - {v}, b);
      StakeMonotone(power - {v}, a, b);
    }
  }

  lemma {:induction false} StakeOutside(power: Power, a: set<Validator>)
    requires forall v :: v in a ==> v !in power
    ensures Stake(power, a) == 0
    decreases power.Keys
  {
    if power.Keys != {} {
      var v :| v in power && Stake(power, a) == Stake(power - {v}, a);
      StakeOutside(power - {v}, a);
    }
  }

  lemma {:induction false} StakeSingle(power: Power, v: Validator)
    ensures Stake(power, {v}) == if v in power then power[v] else 0
    decreases power.Keys
  {
    if power.Keys != {} {
      var k :| k in power && Stake(power, {v}) == (if k in {v} then power[k] else 0) + Stake(power - {k}, {v});
      StakeSingle(power - {k}, v);
    }
  }

  lemma StakeAdd(power: Power, a: set<Validator>, v: Validator)
    requires v !in a
    ensures Stake(power, a + {v}) == Stake(power, a) + if v in power then power[v] else 0
  {
    StakeUnion(power, a, {v});
    StakeSingle(power, v);
    assert a * {v} == {};
    StakeOutside(power, {});
  }

  ghost function Total(power: Power): nat {
    Stake(power, power.Keys)
  }

  /** The engine's two-thirds threshold. */
  predicate Supermajority(total: nat, votes: nat) {
    total > 0 && votes * 3 >= total * 2
  }

  ghost predicate Quorum(power: Power, s: set<Validator>) {
    Supermajority(Total(power), Stake(power, s))
  }

  lemma QuorumMonotone(power: Power, a: set<Validator>, b: set<Validator>)
    requires Quorum(power, a) && a <= b
    ensures Quorum(power, b)
  {
    StakeMonotone(power, a, b);
  }

  /** Byzantine validators hold less than a third of the eligible stake. */
  ghost predicate FewFaults(power: Power, honest: set<Validator>) {
    3 * Stake(power, power.Keys - honest) < Total(power)
  }

  ghost predicate ShareHonest(power: Power, honest: set<Validator>, a: set<Validator>, b: set<Validator>) {
    exists v :: v in a && v in b && v in honest && v in power
  }

  /** Any two quorums share an honest validator. */
  ghost predicate Resilient(power: Power, honest: set<Validator>) {
    forall a, b :: Quorum(power, a) && Quorum(power, b) ==> ShareHonest(power, honest, a, b)
  }

  /** The usual assumption is enough. */
  lemma FewFaultsResilient(power: Power, honest: set<Validator>)
    requires FewFaults(power, honest)
    ensures Resilient(power, honest)
  {
    forall a, b | Quorum(power, a) && Quorum(power, b) ensures ShareHonest(power, honest, a, b) {
      StakeUnion(power, a, b);
      StakeMonotone(power, a + b, power.Keys);
      if forall x :: x in a * b && x in power ==> x in power.Keys - honest {
        StakeMonotone(power, a * b, power.Keys - honest);
        assert false;
      }
      var v :| v in a * b && v in power && v !in power.Keys - honest;
    }
  }

  lemma QuorumsMeet(power: Power, honest: set<Validator>, a: set<Validator>, b: set<Validator>) returns (v: Validator)
    requires Resilient(power, honest) && Quorum(power, a) && Quorum(power, b)
    ensures v in a && v in b && v in honest && v in power
  {
    hide Quorum;
    assert ShareHonest(power, honest, a, b);
    v :| v in a && v in b && v in honest && v in power;
  }

  // ---------------------------------------------------------------------
  // One kind of vote at one height
  // ---------------------------------------------------------------------

  type Ballot = Option<Hash>  // None is a vote for nil

  /** First ballot seen per round and validator, voters per ballot, cached power per ballot. */
  datatype Votes = Votes(
    seen: map<(Round, Validator), Ballot>,
    buckets: map<(Round, Ballot), seq<Validator>>,
    tally: map<(Round, Ballot), nat>)

  const NoVotes := Votes(map[], map[], map[])

  function Bucket(votes: Votes, r: Round, b: Ballot): seq<Validator> {
    if (r, b) in votes.buckets then votes.buckets[(r, b)] else []
  }

  /** `voter_stake`: the eligible stake of a list of voters. */
  function VoterStake(power: Power, voters: seq<Validator>): nat {
    if voters == [] then 0
    else
      var v := voters[|voters| - 1];
      (if v in power then power[v] else 0) + VoterStake(power, voters[..|voters| - 1])
  }

  /** The power of a ballot: the cached tally, or the voters' stake when there is none. */
  function PowerOf(power: Power, votes: Votes, r: Round, b: Ballot): nat {
    if (r, b) in votes.tally then votes.tally[(r, b)] else VoterStake(power, Bucket(votes, r, b))
  }

  /** Record a first ballot; an ineligible voter adds no power. */
  function AddVote(power: Power, votes: Votes, r: Round, b: Ballot, v: Validator): Votes {
    Votes(
      votes.seen[(r, v) := b],
      votes.buckets[(r, b) := Bucket(votes, r, b) + [v]],
      if v in power
      then votes.tally[(r, b) := (if (r, b) in votes.tally then votes.tally[(r, b)] else 0) + power[v]]
      else votes.tally)
  }

  /** Everyone whose ballot at `r` is `b`. */
  ghost function VotersFor(votes: Votes, r: Round, b: Ballot): set<Validator> {
    set k | k in votes.seen && k.0 == r && votes.seen[k] == b :: k.1
  }

  ghost predicate BucketRight(power: Power, votes: Votes, r: Round, b: Ballot) {
    && (forall v :: v in Bucket(votes, r, b) <==> v in VotersFor(votes, r, b))
    && VoterStake(power, Bucket(votes, r, b)) == Stake(power, VotersFor(votes, r, b))
    && PowerOf(power, votes, r, b) == Stake(power, VotersFor(votes, r, b))
    && ((r, b) !in votes.tally ==> VoterStake(power, Bucket(votes, r, b)) == 0)
  }

  /** No validator is counted twice and every cached tally is the stake behind it. */
  ghost predicate Counted(power: Power, votes: Votes) {
    forall r: Round, b: Ballot :: BucketRight(power, votes, r, b)
  }

  lemma NoVotesCounted(power: Power)
    ensures Counted(power, NoVotes)
  {
    forall r: Round, b: Ballot ensures BucketRight(power, NoVotes, r, b) {
      assert VotersFor(NoVotes, r, b) == {};
      StakeOutside(power, {});
    }
  }

  lemma VotersAfter(power: Power, votes: Votes, r: Round, b: Ballot, v: Validator, r': Round, b': Ballot)
    requires (r, v) !in votes.seen
    ensures VotersFor(AddVote(power, votes, r, b, v), r', b') ==
            VotersFor(votes, r', b') + if (r', b') == (r, b) then {v} else {}
    ensures v !in VotersFor(votes, r, b)
  {
    var after := AddVote(power, votes, r, b, v);
    assert forall k :: k in after.seen <==> k in votes.seen || k == (r, v);
    assert after.seen[(r, v)] == b;
    if (r', b') == (r, b) {
      assert v in VotersFor(after, r, b);
    }
    forall x ensures x in VotersFor(after, r', b') <==>
                     x in VotersFor(votes, r', b') || (x == v && (r', b') == (r, b))
    {
      if x in VotersFor(votes, r', b') {
        assert (r', x) in votes.seen && votes.seen[(r', x)] == b';
        assert (r', x) in after.seen && after.seen[(r', x)] == b';
      }
    }
  }

  lemma SameBucket(power: Power, votes: Votes, r: Round, b: Ballot, v: Validator)
    requires BucketRight(power, votes, r, b) && (r, v) !in votes.seen
    ensures BucketRight(power, AddVote(power, votes, r, b, v), r, b)
  {
    hide Stake, VotersFor;
    var after, before := AddVote(power, votes, r, b, v), Bucket(votes, r, b);
    VotersAfter(power, votes, r, b, v, r, b);
    assert Bucket(after, r, b) == before + [v] && (before + [v])[..|before|] == before;
    StakeAdd(power, VotersFor(votes, r, b), v);
  }

  lemma OtherBucket(power: Power, votes: Votes, r: Round, b: Ballot, v: Validator, r': Round, b': Ballot)
    requires BucketRight(power, votes, r', b') && (r, v) !in votes.seen && (r', b') != (r, b)
    ensures BucketRight(power, AddVote(power, votes, r, b, v), r', b')
  {
    hide Stake, VotersFor, VoterStake;
    var after := AddVote(power, votes, r, b, v);
    VotersAfter(power, votes, r, b, v, r', b');
    assert Bucket(after, r', b') == Bucket(votes, r', b');
    assert VotersFor(after, r', b') == VotersFor(votes, r', b');
  }

  /** A first ballot keeps every bucket and every cached tally right. */
  lemma AddVoteCounted(power: Power, votes: Votes, r: Round, b: Ballot, v: Validator)
    requires Counted(power, votes) && (r, v) !in votes.seen
    ensures Counted(power, AddVote(power, votes, r, b, v))
  {
    hide BucketRight, AddVote;
    forall r': Round, b': Ballot ensures BucketRight(power, AddVote(power, votes, r, b, v), r', b') {
      assert BucketRight(power, votes, r', b');
      if (r', b') == (r, b) {
        SameBucket(power, votes, r, b, v);
      } else {
        OtherBucket(power, votes, r, b, v, r', b');
      }
    }
  }
}
