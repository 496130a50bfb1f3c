/**
  The consensus engine of one validator at one height, as a state machine:
  Propose, Prevote, Precommit, Commit, with Tendermint's locking rule.

  Signatures, leader election and timestamps decide whether a proposal is
  `acceptable`; votes are taken as already authenticated. Timeouts may fire at
  any moment, so the engine's requests to schedule them are not modelled.
*/
module BftEngine {
  import opened Bytes
  import opened BftVotes

  datatype Step = Propose | Prevote | Precommit | Commit

  /** A block is known by its hash; `validRound` is -1 when the proposer has no polka to show. */
  datatype Proposal = Proposal(round: Round, block: Hash, validRound: int)

  datatype Engine = Engine(
    me: Validator,
    power: Power,
    total: nat,
    round: Round,
    step: Step,
    lockedRound: Option<Round>,
    lockedValue: Option<Hash>,
    validRound: Option<Round>,
    validValue: Option<Hash>,
    proposals: map<Round, Proposal>,
    blocks: set<Hash>,
    prevotes: Votes,
    precommits: Votes,
    signedPrevotes: map<Round, Ballot>,
    signedPrecommits: map<Round, Ballot>)

  datatype Action =
    | BroadcastProposal(proposal: Proposal)
    | BroadcastPrevote(round: Round, ballot: Ballot)
    | BroadcastPrecommit(round: Round, ballot: Ballot)
    | CommitBlock(round: Round, block: Hash)
    | RequestBlock(block: Hash)
    | EquivocationDetected(round: Round, validator: Validator, first: Ballot, second: Ballot)

  datatype Out = Out(engine: Engine, actions: seq<Action>)

  /** The state `start_height` and `rebuild_power_snapshot` leave. */
  ghost function StartHeight(me: Validator, power: Power): Engine {
    Engine(me, power, Total(power), 0, Propose, None, None, None, None, map[], {}, NoVotes, NoVotes, map[], map[])
  }

  // ---------------------------------------------------------------------
  // Small steps
  // ---------------------------------------------------------------------

  function StartRound(e: Engine, r: Round): Engine {
    e.(round := r, step := Propose)
  }

  /** `transition_to`: an invalid transition leaves the step as it is. */
  function TransitionTo(e: Engine, s: Step): Engine {
    if (e.step, s) in {(Propose, Prevote), (Prevote, Precommit), (Precommit, Commit), (Propose, Commit),
                       (Prevote, Commit), (Prevote, Prevote), (Precommit, Precommit)}
    then e.(step := s) else e
  }

  predicate PrevoteMajority(e: Engine, r: Round, b: Ballot) {
    Supermajority(e.total, PowerOf(e.power, e.prevotes, r, b))
  }

  predicate PrecommitMajority(e: Engine, r: Round, b: Ballot) {
    Supermajority(e.total, PowerOf(e.power, e.precommits, r, b))
  }

  /** `has_polka_for`, which counts the recorded voters rather than the cached tally. */
  predicate HasPolkaFor(e: Engine, r: Round, b: Ballot) {
    (r, b) in e.prevotes.buckets && Supermajority(e.total, VoterStake(e.power, e.prevotes.buckets[(r, b)]))
  }

  function LockOn(e: Engine, h: Hash): Engine {
    e.(lockedRound := Some(e.round), lockedValue := Some(h), validRound := Some(e.round),
       validValue := if h in e.blocks then Some(h) else e.validValue)
  }

  function SignPrevote(e: Engine, b: Ballot): Engine {
    e.(signedPrevotes := e.signedPrevotes[e.round := b],
       prevotes := AddVote(e.power, e.prevotes, e.round, b, e.me))
  }

  function SignPrecommit(e: Engine, b: Ballot): Engine {
    e.(signedPrecommits := e.signedPrecommits[e.round := b],
       precommits := AddVote(e.power, e.precommits, e.round, b, e.me))
  }

  // ---------------------------------------------------------------------
  // Voting
  // ---------------------------------------------------------------------

  /** `do_precommit`. */
  function DoPrecommit(e: Engine, b: Ballot): Out {
    if e.round in e.signedPrecommits then Out(e, [])
    else
      var signed := SignPrecommit(e, b);
      var sent := [BroadcastPrecommit(e.round, b)];
      if !PrecommitMajority(signed, e.round, b) then Out(signed, sent)
      else if b.None? then Out(StartRound(signed, e.round + 1), sent)
      else if b.value in signed.blocks then
        Out(TransitionTo(signed, Commit), sent + [CommitBlock(e.round, b.value)])
      else Out(signed, sent)
  }

  /** `do_prevote`: one prevote a round, and at once a precommit if it completes a polka. */
  function DoPrevote(e: Engine, b: Ballot): Out {
    if e.round in e.signedPrevotes then Out(e, [])
    else
      var signed := SignPrevote(TransitionTo(e, Prevote), b);
      var sent := [BroadcastPrevote(e.round, b)];
      if !PrevoteMajority(signed, e.round, b) then Out(signed, sent)
      else
        var locked := if b.Some? then LockOn(signed, b.value) else signed;
        var next := DoPrecommit(TransitionTo(locked, Precommit), b);
        Out(next.engine, sent + next.actions)
  }

  /** `should_prevote_proposal_block`: the locking rule. */
  predicate ShouldPrevote(e: Engine, p: Proposal) {
    if e.lockedRound.None? || e.lockedValue == Some(p.block) then true
    else p.validRound >= 0 && p.validRound > e.lockedRound.value && HasPolkaFor(e, p.validRound, Some(p.block))
  }

  function PrevoteForProposal(e: Engine, p: Proposal): Out {
    if p.round != e.round || e.step != Propose then Out(e, [])
    else DoPrevote(e, if ShouldPrevote(e, p) then Some(p.block) else None)
  }

  // ---------------------------------------------------------------------
  // Round skip
  // ---------------------------------------------------------------------

  /** Validators seen voting in a later round. */
  ghost function FutureVoters(e: Engine): set<Validator> {
    (set k | k in e.prevotes.seen && k.0 > e.round :: k.1) +
    (set k | k in e.precommits.seen && k.0 > e.round :: k.1)
  }

  /** `r` is the highest round any vote was seen for, or the current one. */
  ghost predicate HighestSeen(e: Engine, r: Round) {
    && (forall k :: k in e.prevotes.seen ==> k.0 <= r)
    && (forall k :: k in e.precommits.seen ==> k.0 <= r)
    && (r == e.round || (exists k :: k in e.prevotes.seen && k.0 == r)
         || (exists k :: k in e.precommits.seen && k.0 == r))
  }

  /** The catch-up loop of `check_round_skip`, at most `n` rounds. */
  function CatchUp(e: Engine, n: nat): Out
    decreases n
  {
    if n == 0 then Out(e, [])
    else if e.round in e.proposals then PrevoteForProposal(e, e.proposals[e.round])
    else
      var out := DoPrevote(e, None);
      if out.engine.round > e.round then
        var rest := CatchUp(out.engine, n - 1);
        Out(rest.engine, out.actions + rest.actions)
      else out
  }

  /** `check_round_skip`: more than a third of the stake has been seen in later rounds. */
  ghost function CheckRoundSkip(e: Engine): Out {
    if e.total > 0 && 3 * Stake(e.power, FutureVoters(e)) > e.total
        && (exists r: Round :: HighestSeen(e, r) && r > e.round)
    then
      var r: Round :| HighestSeen(e, r) && r > e.round;
      CatchUp(StartRound(e, r), 100)
    else Out(e, [])
  }

  // ---------------------------------------------------------------------
  // Events
  // ---------------------------------------------------------------------

  /** `create_proposal`: a locked validator proposes its locked block or nothing. */
  function CreateProposal(e: Engine, freshBlock: Hash): Out {
    if e.step != Propose then Out(e, [])
    else if e.lockedValue.Some? && e.validValue != e.lockedValue && e.lockedValue.value !in e.blocks then Out(e, [])
    else
      var r: Option<Round> :=
        if e.lockedValue.Some? then e.lockedRound else if e.validValue.Some? then e.validRound else None;
      var block :=
        if e.lockedValue.Some? then e.lockedValue.value
        else if e.validValue.Some? then e.validValue.value
        else freshBlock;
      var p := Proposal(e.round, block, if r.Some? then r.value else -1);
      var out := DoPrevote(e.(blocks := e.blocks + {block}, proposals := e.proposals[e.round := p]), Some(block));
      Out(out.engine, [BroadcastProposal(p)] + out.actions)
  }

  /** `on_proposal`, once signature, leader and timestamps have been judged. */
  function OnProposal(e: Engine, p: Proposal, acceptable: bool): Out {
    if p.round < e.round || !acceptable then Out(e, [])
    else
      var stored := e.(blocks := e.blocks + {p.block}, proposals := e.proposals[p.round := p]);
      PrevoteForProposal(stored, p)
  }

  /** `process_current_round_proposal_if_present`. */
  function ReplayProposal(e: Engine): Out {
    if e.step == Propose && e.round in e.proposals then PrevoteForProposal(e, e.proposals[e.round]) else Out(e, [])
  }

  function Then(out: Out, next: Out): Out {
    Out(next.engine, out.actions + next.actions)
  }

  /** Two thirds have prevoted one block in the current round: lock it and precommit it. */
  ghost function OnPolka(e: Engine, r: Round): Out {
    if r == e.round && e.step == Prevote && (exists h: Hash :: PrevoteMajority(e, r, Some(h))) then
      var h: Hash :| PrevoteMajority(e, r, Some(h));
      DoPrecommit(TransitionTo(LockOn(e, h), Precommit), Some(h))
    else Out(e, [])
  }

  function OnNilPolka(e: Engine, r: Round): Out {
    if r == e.round && e.step == Prevote && PrevoteMajority(e, r, None)
    then DoPrecommit(TransitionTo(e, Precommit), None) else Out(e, [])
  }

  ghost function SkipIfAhead(e: Engine, r: Round): Out {
    if r > e.round then CheckRoundSkip(e) else Out(e, [])
  }

  /** `on_prevote`. */
  ghost function OnPrevote(e: Engine, r: Round, b: Ballot, v: Validator): Out {
    if v !in e.power then Out(e, [])
    else if (r, v) in e.prevotes.seen then
      if e.prevotes.seen[(r, v)] == b then Out(e, [])
      else Out(e, [EquivocationDetected(r, v, e.prevotes.seen[(r, v)], b)])
    else
      var o1 := OnPolka(e.(prevotes := AddVote(e.power, e.prevotes, r, b, v)), r);
      var o2 := Then(o1, OnNilPolka(o1.engine, r));
      Then(o2, SkipIfAhead(o2.engine, r))
  }

  /** `on_precommit`. */
  ghost function OnPrecommit(e: Engine, r: Round, b: Ballot, v: Validator): Out {
    if v !in e.power then Out(e, [])
    else if (r, v) in e.precommits.seen then
      if e.precommits.seen[(r, v)] == b then Out(e, [])
      else Out(e, [EquivocationDetected(r, v, e.precommits.seen[(r, v)], b)])
    else if e.step == Commit then Out(e, [])
    else
      var next := e.(precommits := AddVote(e.power, e.precommits, r, b, v));
      if exists h: Hash :: PrecommitMajority(next, r, Some(h)) then
        var h: Hash :| PrecommitMajority(next, r, Some(h));
        if h in next.blocks then Out(TransitionTo(next, Commit), [CommitBlock(r, h)])
        else Then(Out(next, [RequestBlock(h)]), AfterPrecommit(next, r))
      else AfterPrecommit(next, r)
  }

  /** The rest of `on_precommit`: a nil majority ends the round, later rounds may be skipped to. */
  ghost function AfterPrecommit(e: Engine, r: Round): Out {
    if r == e.round && PrecommitMajority(e, r, None) then Out(StartRound(e, r + 1), [])
    else SkipIfAhead(e, r)
  }

  /** `on_timeout`. */
  function OnTimeout(e: Engine, s: Step, r: Round): Out {
    if r != e.round || s != e.step then Out(e, [])
    else
      match s
      case Propose => DoPrevote(e, None)
      case Prevote => DoPrecommit(TransitionTo(e, Precommit), None)
      case Precommit => Out(StartRound(e, e.round + 1), [])
      case Commit => Out(e, [])
  }
}
