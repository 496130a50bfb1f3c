/**
  What a message makes an engine do, in terms of the votes it has seen: when it votes for a
  block, gives up a lock, precommits, commits, asks for a block, moves to another round, and
  reports a validator.
*/
module BftResponses {
  import opened Bytes
  import opened BftVotes
  import opened BftEngine
  import opened BftNode
  import BftOneRound
  import BftSafety
  import C = BftConsensus

  // ---------------------------------------------------------------------
  // Majorities are quorums of the voters seen
  // ---------------------------------------------------------------------

  lemma PrevoteQuorum(e: Engine, r: Round, b: Ballot)
    requires Tallied(e)
    ensures PrevoteMajority(e, r, b) <==> Quorum(e.power, VotersFor(e.prevotes, r, b))
    ensures HasPolkaFor(e, r, b) <==> Quorum(e.power, VotersFor(e.prevotes, r, b))
  {
    BftOneRound.MajorityIsQuorum(e.power, e.prevotes, r, b);
    assert BucketRight(e.power, e.prevotes, r, b);
  }

  lemma PrecommitQuorum(e: Engine, r: Round, b: Ballot)
    requires Tallied(e)
    ensures PrecommitMajority(e, r, b) <==> Quorum(e.power, VotersFor(e.precommits, r, b))
  {
    BftOneRound.MajorityIsQuorum(e.power, e.precommits, r, b);
  }

  /** The voters for `b` at `r` once `v` has voted `c` there. */
  ghost function With(votes: Votes, r: Round, b: Ballot, c: Ballot, v: Validator): set<Validator> {
    VotersFor(votes, r, b) + if c == b then {v} else {}
  }

  // ---------------------------------------------------------------------
  // An engine's own votes
  // ---------------------------------------------------------------------

  /** A precommit is signed once, broadcast, and counted at once: with it a quorum for a known
      block commits it, and a quorum for nil ends the round. */
  lemma OwnPrecommit(e: Engine, b: Ballot)
    requires Ledger(e) && e.step == Precommit && e.round !in e.signedPrecommits
    ensures var out, quorum := DoPrecommit(e, b), Quorum(e.power, With(e.precommits, e.round, b, b, e.me));
            && out.engine.signedPrecommits == e.signedPrecommits[e.round := b]
            && out.engine.precommits == AddVote(e.power, e.precommits, e.round, b, e.me)
            && BroadcastPrecommit(e.round, b) in out.actions
            && (forall r: Round, h: Hash :: CommitBlock(r, h) in out.actions <==>
                  r == e.round && b == Some(h) && h in e.blocks && quorum)
            && out.engine.round == (if quorum && b.None? then e.round + 1 else e.round)
            && out.engine.step == (if quorum && b.None? then Propose
                                   else if quorum && b.value in e.blocks then Commit else Precommit)
  {
    hide Counted, AddVote, PowerOf, Supermajority, VotersFor, OwnSigned;
    C.SignPrecommitLedger(e, b);
    PrecommitQuorum(SignPrecommit(e, b), e.round, b);
    NotVoted(e);
    VotersAfter(e.power, e.precommits, e.round, b, e.me, e.round, b);
  }

  lemma NotVoted(e: Engine)
    requires Ledger(e)
    ensures e.round !in e.signedPrevotes ==> (e.round, e.me) !in e.prevotes.seen
    ensures e.round !in e.signedPrecommits ==> (e.round, e.me) !in e.precommits.seen
  {}

  predicate SameLock(e: Engine, e': Engine) {
    && e'.lockedRound == e.lockedRound && e'.lockedValue == e.lockedValue
    && e'.validRound == e.validRound && e'.validValue == e.validValue
  }

  /** Locked on `h` since round `r`, and `h` is what to propose if its block is at hand. */
  predicate LockedAt(e: Engine, r: Round, h: Hash) {
    && e.lockedRound == Some(r) && e.lockedValue == Some(h) && e.validRound == Some(r)
    && (h in e.blocks ==> e.validValue == Some(h))
  }

  /** A prevote is signed once, broadcast, and counted at once. With it a quorum makes the engine
      precommit the same, and lock on it if it is a block; without one it does neither. */
  lemma OwnPrevote(e: Engine, b: Ballot)
    requires Ledger(e) && e.step == Propose && e.round !in e.signedPrevotes && e.round !in e.signedPrecommits
    ensures var out, quorum := DoPrevote(e, b), Quorum(e.power, With(e.prevotes, e.round, b, b, e.me));
            && out.engine.signedPrevotes == e.signedPrevotes[e.round := b]
            && out.engine.prevotes == AddVote(e.power, e.prevotes, e.round, b, e.me)
            && |out.actions| > 0 && out.actions[0] == BroadcastPrevote(e.round, b)
            && out.engine.signedPrecommits == (if quorum then e.signedPrecommits[e.round := b] else e.signedPrecommits)
            && (if quorum && b.Some? then LockedAt(out.engine, e.round, b.value) else SameLock(e, out.engine))
            && (!quorum ==> out.engine.round == e.round && out.engine.step == Prevote && |out.actions| == 1)
  {
    hide Counted, AddVote, PowerOf, Supermajority, VotersFor, OwnSigned, DoPrecommit, Ledger;
    var moved := TransitionTo(e, Prevote);
    C.SameLedger(e, moved);
    LedgerTallied(SignPrevote(moved, b));
    C.SignPrevoteLedger(moved, b);
    var signed := SignPrevote(moved, b);
    PrevoteQuorum(signed, e.round, b);
    NotVoted(e);
    VotersAfter(e.power, e.prevotes, e.round, b, e.me, e.round, b);
    var locked := TransitionTo(if b.Some? then LockOn(signed, b.value) else signed, Precommit);
    C.SameLedger(signed, locked);
    OwnPrecommit(locked, b);
    PrecommitKeeps(locked, b);
  }

  lemma LedgerTallied(e: Engine)
    ensures Ledger(e) ==> Tallied(e)
  {}

  lemma PrecommitKeeps(e: Engine, b: Ballot)
    ensures var e' := DoPrecommit(e, b).engine;
            && SameLock(e, e') && e'.prevotes == e.prevotes && e'.signedPrevotes == e.signedPrevotes
            && e.round <= e'.round <= e.round + 1 && e'.proposals == e.proposals && e'.blocks == e.blocks
  {
    hide AddVote, PrecommitMajority;
  }

  // ---------------------------------------------------------------------
  // Proposals
  // ---------------------------------------------------------------------

  /** The engine is free to vote for the proposal: it has no lock, or its lock is on that block, or
      it has seen a quorum prevote the block in the round the proposal points to, after its lock. */
  ghost predicate Free(e: Engine, p: Proposal) {
    || e.lockedRound == None
    || e.lockedValue == Some(p.block)
    || (p.validRound > e.lockedRound.value && Quorum(e.power, VotersFor(e.prevotes, p.validRound, Some(p.block))))
  }

  /** For the proposal of its round an engine that has not prevoted signs the block if and only
      if it is free to; otherwise it signs nil. */
  lemma ProposalBallot(e: Engine, p: Proposal)
    requires Tallied(e) && e.step == Propose && p.round == e.round && e.round !in e.signedPrevotes
    ensures var out, ballot := PrevoteForProposal(e, p), if Free(e, p) then Some(p.block) else None;
            && out.engine.signedPrevotes == e.signedPrevotes[e.round := ballot]
            && |out.actions| > 0 && out.actions[0] == BroadcastPrevote(e.round, ballot)
  {
    hide Counted, DoPrevote, VotersFor, Supermajority, Quorum, Tallied;
    if p.validRound >= 0 {
      PrevoteQuorum(e, p.validRound, Some(p.block));
    }
    PrevoteSigned(e, Some(p.block));
    PrevoteSigned(e, None);
  }

  lemma PrevoteSigned(e: Engine, b: Ballot)
    requires e.round !in e.signedPrevotes
    ensures var out := DoPrevote(e, b);
            && out.engine.signedPrevotes == e.signedPrevotes[e.round := b]
            && |out.actions| > 0 && out.actions[0] == BroadcastPrevote(e.round, b)
  {
    hide AddVote, PrevoteMajority, DoPrecommit;
    var signed := SignPrevote(TransitionTo(e, Prevote), b);
    PrecommitKeeps(TransitionTo(if b.Some? then LockOn(signed, b.value) else signed, Precommit), b);
  }

  /** An acceptable proposal of this round or a later one is kept with its block, and voted on
      if it is for this round and the engine still waits for one; any other is ignored. */
  lemma ProposalKept(e: Engine, p: Proposal, acceptable: bool)
    ensures var out := OnProposal(e, p, acceptable);
            if acceptable && p.round >= e.round then
              && out.engine.blocks == e.blocks + {p.block} && out.engine.proposals == e.proposals[p.round := p]
              && (p.round > e.round || e.step != Propose ==> out.engine.signedPrevotes == e.signedPrevotes)
            else out == Out(e, [])
  {
    hide DoPrevote, ShouldPrevote;
    var stored := e.(blocks := e.blocks + {p.block}, proposals := e.proposals[p.round := p]);
    PrevoteMoves(stored, Some(p.block));
    PrevoteMoves(stored, None);
  }

  /** What a locked engine proposes, an engine in the same round with an older lock votes for as
      soon as it has seen the prevotes the lock stands on. */
  lemma LockHandedOn(e: Engine, f: Engine, freshBlock: Hash) returns (p: Proposal)
    requires e.step == Propose && e.lockedRound.Some? && e.lockedValue.Some? && e.lockedValue.value in e.blocks
    requires Tallied(f) && f.step == Propose && f.round == e.round && f.round !in f.signedPrevotes
    requires f.lockedRound.Some? ==> f.lockedRound.value < e.lockedRound.value
    requires Quorum(f.power, VotersFor(f.prevotes, e.lockedRound.value, e.lockedValue))
    ensures BroadcastProposal(p) in CreateProposal(e, freshBlock).actions && p.round == e.round
    ensures e.round in PrevoteForProposal(f, p).engine.signedPrevotes
    ensures PrevoteForProposal(f, p).engine.signedPrevotes[e.round] == e.lockedValue
  {
    hide DoPrevote, Tallied, Quorum, VotersFor, PrevoteForProposal;
    p := Proposal(e.round, e.lockedValue.value, e.lockedRound.value);
    ProposalBallot(f, p);
  }

  /** A locked engine proposes the block it is locked on, pointing to the round of the lock, and
      nothing if it does not have that block. */
  lemma LockedProposes(e: Engine, freshBlock: Hash, p: Proposal)
    requires e.step == Propose && e.lockedRound.Some? && e.lockedValue.Some?
    ensures BroadcastProposal(p) in CreateProposal(e, freshBlock).actions <==>
            && p == Proposal(e.round, e.lockedValue.value, e.lockedRound.value)
            && (e.validValue == e.lockedValue || e.lockedValue.value in e.blocks)
  {
    hide DoPrevote;
    var q := Proposal(e.round, e.lockedValue.value, e.lockedRound.value);
    VotesOnly(e.(blocks := e.blocks + {q.block}, proposals := e.proposals[e.round := q]), Some(q.block));
  }

  lemma VotesOnly(e: Engine, b: Ballot)
    ensures forall a :: a in DoPrevote(e, b).actions ==> !a.BroadcastProposal?
  {
    hide AddVote, PrevoteMajority, PrecommitMajority;
  }

  /** What is proposed is also kept and prevoted. */
  lemma OwnProposalVoted(e: Engine, freshBlock: Hash, p: Proposal)
    requires e.round !in e.signedPrevotes && BroadcastProposal(p) in CreateProposal(e, freshBlock).actions
    ensures var e' := CreateProposal(e, freshBlock).engine;
            && e'.signedPrevotes == e.signedPrevotes[e.round := Some(p.block)]
            && e'.proposals == e.proposals[e.round := p] && e'.blocks == e.blocks + {p.block}
  {
    hide DoPrevote;
    var q := CreateProposal(e, freshBlock).actions[0].proposal;
    var stored := e.(blocks := e.blocks + {q.block}, proposals := e.proposals[e.round := q]);
    VotesOnly(stored, Some(q.block));
    PrevoteSigned(stored, Some(q.block));
    PrevoteMoves(stored, Some(q.block));
  }

  /** A kept proposal of the round is voted on as if it had just arrived. */
  lemma ReplayBallot(e: Engine)
    requires Tallied(e) && e.step == Propose && e.round !in e.signedPrevotes
    requires e.round in e.proposals && e.proposals[e.round].round == e.round
    ensures var p := e.proposals[e.round];
            ReplayProposal(e).engine.signedPrevotes ==
            e.signedPrevotes[e.round := if Free(e, p) then Some(p.block) else None]
  {
    hide PrevoteForProposal, Free, Tallied;
    ProposalBallot(e, e.proposals[e.round]);
  }

  /** Without a lock the valid block is proposed, pointing to its round, and without that the fresh
      one, pointing to none. */
  lemma FreshProposed(e: Engine, freshBlock: Hash, p: Proposal)
    requires e.step == Propose && e.lockedValue.None? && (e.validValue.Some? ==> e.validRound.Some?)
    ensures BroadcastProposal(p) in CreateProposal(e, freshBlock).actions <==>
            p == if e.validValue.Some? then Proposal(e.round, e.validValue.value, e.validRound.value)
                 else Proposal(e.round, freshBlock, -1)
  {
    hide DoPrevote;
    var q := CreateProposal(e, freshBlock).actions[0].proposal;
    VotesOnly(e.(blocks := e.blocks + {q.block}, proposals := e.proposals[e.round := q]), Some(q.block));
  }

  // ---------------------------------------------------------------------
  // Timeouts
  // ---------------------------------------------------------------------

  /** A timeout of the current round and step makes the engine vote nil, or go on after a
      precommit; any other does nothing. */
  lemma TimeoutGivesUp(e: Engine, s: Step, r: Round)
    ensures var out := OnTimeout(e, s, r);
            && (r != e.round || s != e.step || s == Commit ==> out == Out(e, []))
            && (r == e.round && s == e.step == Propose && r !in e.signedPrevotes ==>
                  out.engine.signedPrevotes == e.signedPrevotes[r := None])
            && (r == e.round && s == e.step == Prevote && r !in e.signedPrecommits ==>
                  out.engine.signedPrecommits == e.signedPrecommits[r := None] && SameLock(e, out.engine))
            && (r == e.round && s == e.step == Precommit ==>
                  out == Out(StartRound(e, r + 1), []))
  {
    hide DoPrevote;
    if e.round !in e.signedPrevotes {
      PrevoteSigned(e, None);
    }
    hide AddVote, PrecommitMajority;
  }

  // ---------------------------------------------------------------------
  // Votes of the current round and earlier ones
  // ---------------------------------------------------------------------

  predicate FirstPrevote(e: Engine, r: Round, v: Validator) { v in e.power && (r, v) !in e.prevotes.seen && v != e.me }

  predicate FirstPrecommit(e: Engine, r: Round, v: Validator) {
    v in e.power && (r, v) !in e.precommits.seen && v != e.me
  }

  /** A first prevote in the current round, before the engine has precommitted there: it precommits
      and locks a block if and only if the prevotes for that block are a quorum now. */
  lemma PrevoteNow(e: Engine, b: Ballot, v: Validator)
    requires Ledger(e) && FirstPrevote(e, e.round, v) && e.step == Prevote && e.round !in e.signedPrecommits
    ensures var out := OnPrevote(e, e.round, b, v);
            && out.engine.prevotes == AddVote(e.power, e.prevotes, e.round, b, v)
            && (forall h: Hash :: Quorum(e.power, With(e.prevotes, e.round, Some(h), b, v)) ==>
                  && out.engine.signedPrecommits == e.signedPrecommits[e.round := Some(h)]
                  && LockedAt(out.engine, e.round, h) && BroadcastPrecommit(e.round, Some(h)) in out.actions)
            && (Quorum(e.power, With(e.prevotes, e.round, None, b, v)) ==>
                  && out.engine.signedPrecommits == e.signedPrecommits[e.round := None]
                  && SameLock(e, out.engine) && BroadcastPrecommit(e.round, None) in out.actions)
            && ((forall c: Ballot :: !Quorum(e.power, With(e.prevotes, e.round, c, b, v))) ==>
                  out == Out(e.(prevotes := AddVote(e.power, e.prevotes, e.round, b, v)), []))
  {
    hide Counted, AddVote, Supermajority, OwnSigned, Quorum, DoPrecommit, VotersFor, PowerOf;
    C.SeePrevoteLedger(e, e.round, b, v);
    var e1 := e.(prevotes := AddVote(e.power, e.prevotes, e.round, b, v));
    forall c: Ballot
      ensures Quorum(e.power, With(e.prevotes, e.round, c, b, v)) <==> PrevoteMajority(e1, e.round, c)
    {
      PrevoteQuorum(e1, e.round, c);
      VotersAfter(e.power, e.prevotes, e.round, b, v, e.round, c);
    }
    if h: Hash :| PrevoteMajority(e1, e.round, Some(h)) {
      BlockPolka(e1, h);
      forall c: Ballot | PrevoteMajority(e1, e.round, c) ensures c == Some(h) {
        OneMajority(e.power, e1.prevotes, e.round, Some(h), c);
      }
      NoSecondPolka(OnPolka(e1, e.round).engine, e.round);
      assert OnPrevote(e, e.round, b, v) == OnPolka(e1, e.round);
    } else if PrevoteMajority(e1, e.round, None) {
      NilPolka(e1);
    }
  }

  lemma BlockPolka(e: Engine, h: Hash)
    requires Ledger(e) && e.step == Prevote && e.round !in e.signedPrecommits && PrevoteMajority(e, e.round, Some(h))
    ensures var out := OnPolka(e, e.round);
            && out.engine.signedPrecommits == e.signedPrecommits[e.round := Some(h)] && LockedAt(out.engine, e.round, h)
            && BroadcastPrecommit(e.round, Some(h)) in out.actions && out.engine.prevotes == e.prevotes
            && out.engine.round == e.round && out.engine.step != Prevote
  {
    hide Counted, AddVote, Supermajority, OwnSigned, Quorum, DoPrecommit, VotersFor, PowerOf;
    C.PolkaIs(e, e.round, h);
    var locked := TransitionTo(LockOn(e, h), Precommit);
    C.SameLedger(e, locked);
    OwnPrecommit(locked, Some(h));
    PrecommitKeeps(locked, Some(h));
  }

  lemma NilPolka(e: Engine)
    requires Ledger(e) && e.step == Prevote && e.round !in e.signedPrecommits && PrevoteMajority(e, e.round, None)
    ensures var out := OnNilPolka(e, e.round);
            && out.engine.signedPrecommits == e.signedPrecommits[e.round := None] && SameLock(e, out.engine)
            && BroadcastPrecommit(e.round, None) in out.actions && out.engine.prevotes == e.prevotes
            && out.engine.round >= e.round
  {
    hide Counted, AddVote, Supermajority, OwnSigned, Quorum, DoPrecommit, VotersFor, PowerOf;
    var moved := TransitionTo(e, Precommit);
    C.SameLedger(e, moved);
    OwnPrecommit(moved, None);
    PrecommitKeeps(moved, None);
  }

  lemma NoSecondPolka(e: Engine, r: Round)
    requires e.step != Prevote && r <= e.round
    ensures OnNilPolka(e, r) == Out(e, []) && SkipIfAhead(e, r) == Out(e, [])
  {}

  /** A first prevote of an earlier round is recorded and nothing else happens. */
  lemma PrevoteLate(e: Engine, r: Round, b: Ballot, v: Validator)
    requires FirstPrevote(e, r, v) && r < e.round
    ensures OnPrevote(e, r, b, v) == Out(e.(prevotes := AddVote(e.power, e.prevotes, r, b, v)), [])
  {
    hide AddVote, PrevoteMajority;
  }

  /** A first precommit, of whatever round: if the precommits for a block are a quorum now, the
      engine commits it, or asks for it if it does not have it; otherwise, unless it skips ahead,
      it does neither. */
  lemma PrecommitDecides(e: Engine, r: Round, b: Ballot, v: Validator, h: Hash)
    requires Ledger(e) && FirstPrecommit(e, r, v) && e.step != Commit
    ensures var out, quorum := OnPrecommit(e, r, b, v), Quorum(e.power, With(e.precommits, r, Some(h), b, v));
            && (quorum && h in e.blocks ==>
                  out.engine == e.(precommits := AddVote(e.power, e.precommits, r, b, v), step := Commit)
                  && out.actions == [CommitBlock(r, h)])
            && (quorum && h !in e.blocks ==> RequestBlock(h) in out.actions)
            && (r <= e.round && !quorum ==> CommitBlock(r, h) !in out.actions && RequestBlock(h) !in out.actions)
  {
    hide Counted, AddVote, Supermajority, OwnSigned, Quorum, VotersFor, PowerOf, SkipIfAhead;
    C.SeePrecommitLedger(e, r, b, v);
    var e1 := e.(precommits := AddVote(e.power, e.precommits, r, b, v));
    PrecommitQuorum(e1, r, Some(h));
    VotersAfter(e.power, e.precommits, r, b, v, r, Some(h));
    NotAhead(e1, r);
    if k: Hash :| PrecommitMajority(e1, r, Some(k)) {
      C.CommitIs(e1, r, k);
    }
  }

  lemma NotAhead(e: Engine, r: Round)
    ensures r <= e.round ==> SkipIfAhead(e, r) == Out(e, [])
  {}

  /** Precommits for nil end the current round if and only if they are a quorum. */
  lemma NilEndsRound(e: Engine, b: Ballot, v: Validator)
    requires Ledger(e) && FirstPrecommit(e, e.round, v) && e.step != Commit
    requires forall h: Hash :: !Quorum(e.power, With(e.precommits, e.round, Some(h), b, v))
    ensures var e1 := e.(precommits := AddVote(e.power, e.precommits, e.round, b, v));
            OnPrecommit(e, e.round, b, v) ==
            if Quorum(e.power, With(e.precommits, e.round, None, b, v)) then Out(StartRound(e1, e.round + 1), [])
            else Out(e1, [])
  {
    hide Counted, AddVote, Supermajority, OwnSigned, Quorum, VotersFor, PowerOf;
    C.SeePrecommitLedger(e, e.round, b, v);
    var e1 := e.(precommits := AddVote(e.power, e.precommits, e.round, b, v));
    forall c: Ballot
      ensures Quorum(e.power, With(e.precommits, e.round, c, b, v)) <==> PrecommitMajority(e1, e.round, c)
    {
      PrecommitQuorum(e1, e.round, c);
      VotersAfter(e.power, e.precommits, e.round, b, v, e.round, c);
    }
  }

  // ---------------------------------------------------------------------
  // Later rounds
  // ---------------------------------------------------------------------

  /** `v` has been seen voting, in either way, in a round after the engine's. */
  ghost predicate SeenLater(e: Engine, v: Validator) {
    exists r: Round :: r > e.round && ((r, v) in e.prevotes.seen || (r, v) in e.precommits.seen)
  }

  /** Proposals are filed under their round. */
  ghost predicate Filed(e: Engine) {
    forall r :: r in e.proposals ==> e.proposals[r].round == r
  }

  /** A first vote of a later round that completes no quorum there is recorded, and then only
      whether to skip ahead is decided. */
  lemma VoteAhead(e: Engine, r: Round, b: Ballot, v: Validator)
    requires Ledger(e) && r > e.round
    ensures FirstPrevote(e, r, v) ==>
              OnPrevote(e, r, b, v) == CheckRoundSkip(e.(prevotes := AddVote(e.power, e.prevotes, r, b, v)))
    ensures FirstPrecommit(e, r, v) && e.step != Commit &&
            (forall h: Hash :: !Quorum(e.power, With(e.precommits, r, Some(h), b, v))) ==>
              OnPrecommit(e, r, b, v) == CheckRoundSkip(e.(precommits := AddVote(e.power, e.precommits, r, b, v)))
  {
    hide Counted, AddVote, Supermajority, OwnSigned, Quorum, VotersFor, PowerOf, CheckRoundSkip;
    if FirstPrevote(e, r, v) {
      var out := CheckRoundSkip(e.(prevotes := AddVote(e.power, e.prevotes, r, b, v)));
      assert [] + [] + out.actions == out.actions;
    }
    if FirstPrecommit(e, r, v) {
      C.SeePrecommitLedger(e, r, b, v);
      var e1 := e.(precommits := AddVote(e.power, e.precommits, r, b, v));
      forall h: Hash
        ensures Quorum(e.power, With(e.precommits, r, Some(h), b, v)) <==> PrecommitMajority(e1, r, Some(h))
      {
        PrecommitQuorum(e1, r, Some(h));
        VotersAfter(e.power, e.precommits, r, b, v, r, Some(h));
      }
    }
  }

  /** The ballot an engine signs on entering round `r`: the proposal kept for it, if it is free to
      vote for that, or nil. */
  ghost function EntryBallot(e: Engine, r: Round): Ballot {
    if r in e.proposals && Free(e, e.proposals[r]) then Some(e.proposals[r].block) else None
  }

  /** The engine leaves its round for the highest one it has seen a vote of, or goes beyond, if and
      only if more than a third of the stake has been seen voting later. It prevotes there, and goes
      on for up to a hundred rounds as long as the votes it has carry it through. */
  lemma SkipsIff(e: Engine, ahead: set<Validator>, r: Round)
    requires Tallied(e) && Filed(e) && HighestSeen(e, r) && forall s :: s in e.signedPrevotes ==> s <= e.round
    requires forall v :: v in ahead <==> SeenLater(e, v)
    ensures var out := CheckRoundSkip(e);
            if 3 * Stake(e.power, ahead) > e.total
            then out.engine.round >= r > e.round && r in out.engine.signedPrevotes
                 && out.engine.signedPrevotes[r] == EntryBallot(e, r)
                 && (out.engine.round in out.engine.signedPrevotes || out.engine.round == r + 100 ||
                     (out.engine.round > r && out.engine.round - 1 in e.proposals))
            else out == Out(e, [])
  {
    hide Stake, CatchUp, Counted, EntryBallot;
    assert FutureVoters(e) == ahead by {
      assert forall v :: v in FutureVoters(e) <==> SeenLater(e, v);
    }
    StakeMonotone(e.power, ahead, e.power.Keys);
    if 3 * Stake(e.power, ahead) > e.total {
      if ahead == {} {
        StakeOutside(e.power, {});
      }
      var v :| v in ahead;
      assert SeenLater(e, v);
      C.SkipIs(e, r);
      var entered := StartRound(e, r);
      CatchUpVotes(entered, 100);
      CatchUpFar(entered, 100);
      SameEntry(e, entered, r);
    }
  }

  lemma SameEntry(e: Engine, e': Engine, r: Round)
    requires e' == StartRound(e, r)
    ensures EntryBallot(e', r) == EntryBallot(e, r)
  {}

  lemma CatchUpVotes(e: Engine, n: nat)
    requires n > 0 && e.step == Propose && Filed(e) && Tallied(e) && e.round !in e.signedPrevotes
    ensures var e' := CatchUp(e, n).engine;
            e'.round >= e.round && e.round in e'.signedPrevotes && e'.signedPrevotes[e.round] == EntryBallot(e, e.round)
  {
    hide DoPrevote, PrevoteForProposal, Free, Tallied;
    PrevoteMoves(e, None);
    if e.round in e.proposals {
      ProposalBallot(e, e.proposals[e.round]);
      ProposalMoves(e, e.proposals[e.round]);
    } else {
      PrevoteSigned(e, None);
      CatchUpKeeps(DoPrevote(e, None).engine, n - 1, e.round);
    }
  }

  lemma ProposalMoves(e: Engine, p: Proposal)
    ensures PrevoteForProposal(e, p).engine.round >= e.round
  {
    hide DoPrevote, ShouldPrevote;
    PrevoteMoves(e, Some(p.block));
    PrevoteMoves(e, None);
  }

  /** A ballot once signed stays through the catch-up. */
  lemma {:induction false} CatchUpKeeps(e: Engine, n: nat, r: Round)
    requires r in e.signedPrevotes
    ensures var e' := CatchUp(e, n).engine;
            e'.round >= e.round && r in e'.signedPrevotes && e'.signedPrevotes[r] == e.signedPrevotes[r]
    decreases n
  {
    hide DoPrevote, ShouldPrevote;
    if n > 0 {
      BallotStays(e, None, r);
      if e.round in e.proposals {
        BallotStays(e, Some(e.proposals[e.round].block), r);
      } else {
        CatchUpKeeps(DoPrevote(e, None).engine, n - 1, r);
      }
    }
  }

  lemma BallotStays(e: Engine, b: Ballot, r: Round)
    requires r in e.signedPrevotes
    ensures var e' := DoPrevote(e, b).engine;
            e'.round >= e.round && r in e'.signedPrevotes && e'.signedPrevotes[r] == e.signedPrevotes[r]
  {
    PrevoteMoves(e, b);
    if e.round !in e.signedPrevotes {
      PrevoteSigned(e, b);
    }
    hide DoPrevote;
  }

  /** The catch-up votes in every round it passes, and stops in one it has voted in, behind one with
      a proposal, or after as many rounds as it may. */
  lemma {:induction false} CatchUpFar(e: Engine, n: nat)
    requires e.step == Propose && Filed(e) && forall s :: s in e.signedPrevotes ==> s < e.round
    ensures var e' := CatchUp(e, n).engine;
            && e.round <= e'.round <= e.round + n
            && (forall s: Round :: e.round <= s < e'.round ==> s in e'.signedPrevotes)
            && (e'.round in e'.signedPrevotes || e'.round == e.round + n ||
                (e'.round > e.round && e'.round - 1 in e.proposals))
    decreases n
  {
    hide DoPrevote, ShouldPrevote;
    if n > 0 {
      PrevoteMoves(e, None);
      PrevoteSigned(e, None);
      if e.round in e.proposals {
        var block := e.proposals[e.round].block;
        PrevoteMoves(e, Some(block));
        PrevoteSigned(e, Some(block));
      } else if DoPrevote(e, None).engine.round > e.round {
        BftSafety.NilPrevoteRestarts(e);
        var next := DoPrevote(e, None).engine;
        CatchUpFar(next, n - 1);
        CatchUpKeeps(next, n - 1, e.round);
      }
    }
  }

  lemma PrevoteMoves(e: Engine, b: Ballot)
    ensures var e' := DoPrevote(e, b).engine;
            && e.round <= e'.round <= e.round + 1 && e'.proposals == e.proposals && e'.blocks == e.blocks
            && (e.round in e.signedPrevotes ==> e' == e)
  {
    hide AddVote, PrevoteMajority, DoPrecommit;
    var signed := SignPrevote(TransitionTo(e, Prevote), b);
    PrecommitKeeps(TransitionTo(if b.Some? then LockOn(signed, b.value) else signed, Precommit), b);
  }
}
