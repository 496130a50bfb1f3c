/**
  One engine on its way to committing one block in one round: what it does when the proposal,
  the prevotes and the precommits for that block arrive and nothing else does, and how it
  reaches round 1 when nothing arrives at all.
*/
module BftOneRound {
  import opened Bytes
  import opened BftVotes
  import opened BftEngine
  import opened BftSafety

  /** The round in which a block is to be committed, with the power table. */
  datatype Plan = Plan(power: Power, round: Round, block: Hash)

  function ProposalOf(g: Plan): Proposal { Proposal(g.round, g.block, -1) }

  // ---------------------------------------------------------------------
  // Votes for one block
  // ---------------------------------------------------------------------

  /** No vote is for a later round, and those of the plan's round are for its block. */
  predicate OnlyFor(votes: Votes, g: Plan) {
    forall k :: k in votes.seen ==> k.0 <= g.round && (k.0 == g.round ==> votes.seen[k] == Some(g.block))
  }

  predicate NoneIn(votes: Votes, r: Round) {
    forall k :: k in votes.seen ==> k.0 != r
  }

  lemma MajorityIsQuorum(power: Power, votes: Votes, r: Round, b: Ballot)
    requires Counted(power, votes)
    ensures Supermajority(Total(power), PowerOf(power, votes, r, b)) <==> Quorum(power, VotersFor(votes, r, b))
  {
    assert BucketRight(power, votes, r, b);
  }

  lemma NoMajority(power: Power, votes: Votes, r: Round, b: Ballot)
    requires Counted(power, votes) && VotersFor(votes, r, b) == {}
    ensures !Supermajority(Total(power), PowerOf(power, votes, r, b))
  {
    hide Counted, PowerOf, Stake;
    MajorityIsQuorum(power, votes, r, b);
    StakeOutside(power, {});
  }

  /** No other ballot can have a majority. */
  lemma OnlyOne(g: Plan, votes: Votes, b: Ballot)
    requires Counted(g.power, votes) && OnlyFor(votes, g) && b != Some(g.block)
    ensures !Supermajority(Total(g.power), PowerOf(g.power, votes, g.round, b))
  {
    hide Counted, PowerOf;
    assert VotersFor(votes, g.round, b) == {};
    NoMajority(g.power, votes, g.round, b);
  }

  lemma MoreForOne(g: Plan, votes: Votes, v: Validator)
    requires Counted(g.power, votes) && OnlyFor(votes, g) && (g.round, v) !in votes.seen
    ensures var after := AddVote(g.power, votes, g.round, Some(g.block), v);
            Counted(g.power, after) && OnlyFor(after, g) && after.seen == votes.seen[(g.round, v) := Some(g.block)]
  {
    hide Counted;
    AddVoteCounted(g.power, votes, g.round, Some(g.block), v);
    AddVoteSeen(g.power, votes, g.round, Some(g.block), v);
  }

  /** Once a quorum's votes have been seen there is a majority. */
  lemma QuorumSeen(g: Plan, votes: Votes, quorum: set<Validator>)
    requires Counted(g.power, votes) && OnlyFor(votes, g) && Quorum(g.power, quorum)
    requires forall v :: v in quorum ==> (g.round, v) in votes.seen
    ensures Supermajority(Total(g.power), PowerOf(g.power, votes, g.round, Some(g.block)))
  {
    hide Counted, PowerOf, Quorum;
    var voters := VotersFor(votes, g.round, Some(g.block));
    MajorityIsQuorum(g.power, votes, g.round, Some(g.block));
    forall v | v in quorum ensures v in voters {
      assert votes.seen[(g.round, v)] == Some(g.block);
    }
    QuorumMonotone(g.power, quorum, voters);
  }

  // ---------------------------------------------------------------------
  // An engine that has only heard of one block in the round
  // ---------------------------------------------------------------------

  /** In the plan's round, every vote seen there is for its block, and the block is at hand. */
  ghost predicate Stage(g: Plan, p: Validator, e: Engine) {
    && e.me == p && e.power == g.power && e.total == Total(g.power) && e.round == g.round && g.block in e.blocks
    && Counted(g.power, e.prevotes) && OnlyFor(e.prevotes, g)
    && Counted(g.power, e.precommits) && OnlyFor(e.precommits, g)
  }

  /** Not committed, and still short of a majority of precommits. */
  predicate Undecided(g: Plan, e: Engine) {
    e.step != Commit && !PrecommitMajority(e, g.round, Some(g.block))
  }

  predicate Reports(g: Plan, out: Out) {
    out.engine.step == Commit && CommitBlock(g.round, g.block) in out.actions
  }

  predicate SignedFor(g: Plan, signed: map<Round, Ballot>) {
    g.round in signed && signed[g.round] == Some(g.block)
  }

  /** `p` has prevoted the block and precommits it as soon as it sees the polka. */
  ghost predicate Voting(g: Plan, p: Validator, e: Engine) {
    && Stage(g, p, e) && SignedFor(g, e.signedPrevotes) && (g.round, p) in e.prevotes.seen
    && if g.round in e.signedPrecommits
       then SignedFor(g, e.signedPrecommits) && (e.step == Precommit || e.step == Commit)
       else e.step == Prevote && NoneIn(e.precommits, g.round) && !PrevoteMajority(e, g.round, Some(g.block))
  }

  lemma PrecommitVotes(g: Plan, p: Validator, e: Engine)
    requires Stage(g, p, e) && e.step == Precommit && g.round !in e.signedPrecommits && NoneIn(e.precommits, g.round)
    requires SignedFor(g, e.signedPrevotes) && (g.round, p) in e.prevotes.seen
    ensures var out := DoPrecommit(e, Some(g.block));
            && Voting(g, p, out.engine) && g.round in out.engine.signedPrecommits
            && (Undecided(g, out.engine) || Reports(g, out)) && out.engine.prevotes == e.prevotes
  {
    hide Counted, AddVote, PowerOf, Supermajority;
    MoreForOne(g, e.precommits, p);
    var commit := CommitBlock(g.round, g.block);
    assert commit in [BroadcastPrecommit(g.round, Some(g.block))] + [commit];
  }

  /** At the start of round `r`: nothing voted there, nothing locked. */
  ghost predicate Fresh(power: Power, p: Validator, e: Engine, r: Round) {
    && e.me == p && e.power == power && e.total == Total(power) && e.round == r && e.step == Propose
    && e.lockedRound == None && e.lockedValue == None && e.validValue == None
    && r !in e.signedPrevotes && r !in e.signedPrecommits
    && Counted(power, e.prevotes) && (forall k :: k in e.prevotes.seen ==> k.0 < r)
    && Counted(power, e.precommits) && (forall k :: k in e.precommits.seen ==> k.0 < r)
  }

  lemma StartFresh(power: Power, p: Validator)
    ensures Fresh(power, p, StartHeight(p, power), 0)
  {
    hide Counted;
    NoVotesCounted(power);
  }

  function Stored(g: Plan, e: Engine): Engine {
    e.(blocks := e.blocks + {g.block}, proposals := e.proposals[g.round := ProposalOf(g)])
  }

  /** A fresh engine prevotes the block as soon as it has it. */
  lemma StoredVotes(g: Plan, p: Validator, e: Engine)
    requires Fresh(g.power, p, e, g.round)
    ensures var out := DoPrevote(Stored(g, e), Some(g.block));
            Voting(g, p, out.engine) && (Undecided(g, out.engine) || Reports(g, out))
  {
    hide Counted, AddVote, PowerOf, Supermajority, DoPrecommit, Total;
    var stored := Stored(g, e);
    MoreForOne(g, e.prevotes, p);
    var signed := SignPrevote(TransitionTo(stored, Prevote), Some(g.block));
    if PrevoteMajority(signed, g.round, Some(g.block)) {
      PrecommitVotes(g, p, TransitionTo(LockOn(signed, g.block), Precommit));
    } else {
      NoPrecommits(g, signed);
    }
  }

  lemma NoPrecommits(g: Plan, e: Engine)
    requires e.power == g.power && e.total == Total(g.power) && Counted(g.power, e.precommits)
    requires NoneIn(e.precommits, g.round)
    ensures !PrecommitMajority(e, g.round, Some(g.block))
  {
    hide Counted, PowerOf;
    assert VotersFor(e.precommits, g.round, Some(g.block)) == {};
    NoMajority(g.power, e.precommits, g.round, Some(g.block));
  }

  lemma ProposalVotes(g: Plan, p: Validator, e: Engine)
    requires Fresh(g.power, p, e, g.round)
    ensures var out := OnProposal(e, ProposalOf(g), true);
            Voting(g, p, out.engine) && (Undecided(g, out.engine) || Reports(g, out))
  {
    hide Counted, DoPrevote, Voting, Undecided;
    StoredVotes(g, p, e);
  }

  /** Taking its turn, it broadcasts the block and prevotes it the same way. */
  lemma TurnVotes(g: Plan, p: Validator, e: Engine)
    requires Fresh(g.power, p, e, g.round)
    ensures var out := CreateProposal(e, g.block);
            && out.engine == DoPrevote(Stored(g, e), Some(g.block)).engine
            && BroadcastProposal(ProposalOf(g)) in out.actions
            && Voting(g, p, out.engine) && (Undecided(g, out.engine) || Reports(g, out))
  {
    hide Counted, DoPrevote, Voting, Undecided;
    StoredVotes(g, p, e);
    var voted := DoPrevote(Stored(g, e), Some(g.block));
    assert CreateProposal(e, g.block) == Out(voted.engine, [BroadcastProposal(ProposalOf(g))] + voted.actions);
  }

  /** A prevote for the block arrives. */
  lemma PrevoteVotes(g: Plan, p: Validator, e: Engine, v: Validator)
    requires Voting(g, p, e) && (e.step != Commit ==> Undecided(g, e))
    ensures var out := OnPrevote(e, g.round, Some(g.block), v);
            && Voting(g, p, out.engine)
            && (Undecided(g, out.engine) || Reports(g, out) || (e.step == Commit && out.engine.step == Commit))
            && (v in g.power ==> (g.round, v) in out.engine.prevotes.seen)
            && (forall k :: k in e.prevotes.seen ==> k in out.engine.prevotes.seen)
  {
    hide Counted, AddVote, PowerOf, Supermajority, DoPrecommit, Total, Voting, Stage;
    VotingParts(g, p, e);
    if v in g.power && (g.round, v) !in e.prevotes.seen {
      NewPrevoteVotes(g, p, e, v);
    }
  }

  lemma VotingParts(g: Plan, p: Validator, e: Engine)
    requires Voting(g, p, e)
    ensures e.power == g.power && OnlyFor(e.prevotes, g)
  {
    hide Counted;
  }

  lemma NewPrevoteVotes(g: Plan, p: Validator, e: Engine, v: Validator)
    requires Voting(g, p, e) && (e.step != Commit ==> Undecided(g, e))
    requires v in g.power && (g.round, v) !in e.prevotes.seen
    ensures var out := OnPrevote(e, g.round, Some(g.block), v);
            && Voting(g, p, out.engine)
            && (Undecided(g, out.engine) || Reports(g, out) || (e.step == Commit && out.engine.step == Commit))
            && out.engine.prevotes.seen == e.prevotes.seen[(g.round, v) := Some(g.block)]
  {
    hide Counted, AddVote, PowerOf, Supermajority, DoPrecommit, Total, CheckRoundSkip;
    MoreForOne(g, e.prevotes, v);
    var seen := e.(prevotes := AddVote(g.power, e.prevotes, g.round, Some(g.block), v));
    forall b: Ballot | b != Some(g.block) ensures !PrevoteMajority(seen, g.round, b) {
      OnlyOne(g, seen.prevotes, b);
    }
    var o1 := OnPolka(seen, g.round);
    if seen.step == Prevote && PrevoteMajority(seen, g.round, Some(g.block)) {
      var locked := TransitionTo(LockOn(seen, g.block), Precommit);
      assert o1 == DoPrecommit(locked, Some(g.block));
      PrecommitVotes(g, p, locked);
    } else {
      assert o1 == Out(seen, []);
    }
    assert o1.actions + [] + [] == o1.actions;
  }

  /** A precommit for the block arrives. */
  lemma PrecommitArrivesFor(g: Plan, p: Validator, e: Engine, v: Validator)
    requires Stage(g, p, e) && Undecided(g, e)
    ensures var out := OnPrecommit(e, g.round, Some(g.block), v);
            || Reports(g, out)
            || (&& Stage(g, p, out.engine) && Undecided(g, out.engine)
                && (v in g.power ==> (g.round, v) in out.engine.precommits.seen)
                && (forall k :: k in e.precommits.seen ==> k in out.engine.precommits.seen))
    ensures OnPrecommit(e, g.round, Some(g.block), v).engine.signedPrecommits == e.signedPrecommits
  {
    hide Counted, AddVote, PowerOf, Supermajority, Total, CheckRoundSkip;
    if v in g.power && (g.round, v) !in e.precommits.seen {
      MoreForOne(g, e.precommits, v);
      var seen := e.(precommits := AddVote(g.power, e.precommits, g.round, Some(g.block), v));
      forall b: Ballot | b != Some(g.block) ensures !PrecommitMajority(seen, g.round, b) {
        OnlyOne(g, seen.precommits, b);
      }
    }
  }

  // ---------------------------------------------------------------------
  // Timing out of round 0
  // ---------------------------------------------------------------------

  predicate OwnOnly(votes: Votes, p: Validator) {
    forall k :: k in votes.seen ==> k == (0, p)
  }

  /** In round 0, unlocked, having seen no vote but its own prevote if it has cast one. */
  ghost predicate Idle(power: Power, p: Validator, e: Engine) {
    && e.me == p && e.power == power && e.total == Total(power) && e.round == 0
    && e.lockedRound == None && e.lockedValue == None && e.validValue == None
    && Counted(power, e.prevotes) && OwnOnly(e.prevotes, p)
    && Counted(power, e.precommits) && e.precommits.seen == map[] && e.signedPrecommits == map[]
    && (forall r :: r in e.signedPrevotes ==> r == 0)
    && (e.step == Prevote || (e.step == Propose && e.prevotes.seen == map[] && e.signedPrevotes == map[]))
  }

  lemma StartIdle(power: Power, p: Validator)
    ensures Idle(power, p, StartHeight(p, power))
  {
    hide Counted;
    NoVotesCounted(power);
  }

  /** A vote that is the only one seen is no majority, unless the voter is a quorum by itself. */
  lemma AloneNoMajority(power: Power, votes: Votes, p: Validator, b: Ballot)
    requires Counted(power, votes) && OwnOnly(votes, p) && !Quorum(power, {p})
    ensures !Supermajority(Total(power), PowerOf(power, votes, 0, b))
  {
    hide Counted, PowerOf, Stake;
    MajorityIsQuorum(power, votes, 0, b);
    StakeMonotone(power, VotersFor(votes, 0, b), {p});
  }

  /** Its own prevote leaves it idle. */
  lemma PrevoteIdle(power: Power, p: Validator, e: Engine, b: Ballot)
    requires Idle(power, p, e) && e.step == Propose && !Quorum(power, {p})
    ensures Idle(power, p, DoPrevote(e, b).engine) && DoPrevote(e, b).engine.step == Prevote
  {
    hide Counted, AddVote, PowerOf, Supermajority, Quorum, DoPrecommit;
    AddVoteCounted(power, e.prevotes, 0, b, p);
    AddVoteSeen(power, e.prevotes, 0, b, p);
    AloneNoMajority(power, AddVote(power, e.prevotes, 0, b, p), p, b);
  }

  /** Nothing happens any more: two timeouts, and it starts round 1 unlocked. */
  lemma TimesOut(power: Power, p: Validator, e: Engine)
    requires Idle(power, p, e) && e.step == Prevote && !Quorum(power, {p})
    ensures var e1 := OnTimeout(e, Prevote, 0).engine;
            Fresh(power, p, OnTimeout(e1, Precommit, 0).engine, 1)
  {
    hide Counted, AddVote, PowerOf, Supermajority, Quorum;
    AddVoteCounted(power, e.precommits, 0, None, p);
    AddVoteSeen(power, e.precommits, 0, None, p);
    AloneNoMajority(power, AddVote(power, e.precommits, 0, None, p), p, None);
  }
}
