/**
  `ConsensusEngine`: the per-height state of one validator, updated in place by proposals,
  votes and timeouts. Each method does exactly what the state machine says and keeps the
  vote tables right.
*/
module BftConsensus {
  import opened Bytes
  import opened BftVotes
  import opened BftNode
  import E = BftEngine
  import opened BftEngine

  // ---------------------------------------------------------------------
  // What signing and seeing votes keep
  // ---------------------------------------------------------------------

  lemma SignPrevoteLedger(e: Engine, b: Ballot)
    requires e.round !in e.signedPrevotes
    ensures Ledger(e) ==> Ledger(SignPrevote(e, b))
  {
    hide Counted, AddVote;
    if Ledger(e) {
      OwnVote(e.power, e.prevotes, e.signedPrevotes, e.me, e.round, b);
    }
  }

  lemma SignPrecommitLedger(e: Engine, b: Ballot)
    requires e.round !in e.signedPrecommits
    ensures Ledger(e) ==> Ledger(SignPrecommit(e, b))
  {
    hide Counted, AddVote;
    if Ledger(e) {
      OwnVote(e.power, e.precommits, e.signedPrecommits, e.me, e.round, b);
    }
  }

  /** A first vote keeps the tallies right; the rest too, if it is not in the engine's own name. */
  lemma SeePrevoteLedger(e: Engine, r: Round, b: Ballot, v: Validator)
    requires Ledger(e) && (r, v) !in e.prevotes.seen
    ensures var e' := e.(prevotes := AddVote(e.power, e.prevotes, r, b, v));
            Tallied(e') && (v != e.me ==> Ledger(e'))
  {
    hide Counted, AddVote;
    AddVoteCounted(e.power, e.prevotes, r, b, v);
    if v != e.me {
      OtherVote(e.power, e.prevotes, e.signedPrevotes, e.me, r, b, v);
    }
  }

  lemma SeePrecommitLedger(e: Engine, r: Round, b: Ballot, v: Validator)
    requires Ledger(e) && (r, v) !in e.precommits.seen
    ensures var e' := e.(precommits := AddVote(e.power, e.precommits, r, b, v));
            Tallied(e') && (v != e.me ==> Ledger(e'))
  {
    hide Counted, AddVote;
    AddVoteCounted(e.power, e.precommits, r, b, v);
    if v != e.me {
      OtherVote(e.power, e.precommits, e.signedPrecommits, e.me, r, b, v);
    }
  }

  /** The tables are right whatever the round, the step, the lock and the stored proposals. */
  ghost predicate SameTables(e: Engine, e': Engine) {
    && e'.me == e.me && e'.power == e.power && e'.total == e.total && e'.prevotes == e.prevotes
    && e'.precommits == e.precommits && e'.signedPrevotes == e.signedPrevotes
    && e'.signedPrecommits == e.signedPrecommits
  }

  lemma SameLedger(e: Engine, e': Engine)
    requires SameTables(e, e')
    ensures Ledger(e) ==> Ledger(e')
  {}

  /** What `on_proposal` looks at besides the round: two signatures, the leader of the round, and
      the block's time against its parent's and the clock's. */
  datatype ProposalChecks = ProposalChecks(signature: bool, leader: bool, blockSignature: bool,
                                           timestamp: nat, parentTimestamp: Option<nat>, now: nat)

  const MAX_AHEAD_SECS: nat := 30

  class ConsensusEngine {
    const me: Validator
    const power: Power
    const total: nat
    var round: Round
    var step: Step
    var lockedRound: Option<Round>
    var lockedValue: Option<Hash>
    var validRound: Option<Round>
    var validValue: Option<Hash>
    var proposals: map<Round, Proposal>
    var blocks: set<Hash>
    const prevotes: VoteTable
    const precommits: VoteTable
    var signedPrevotes: map<Round, Ballot>
    var signedPrecommits: map<Round, Ballot>

    function State(): Engine
      reads this, prevotes, precommits
    {
      Engine(me, power, total, round, step, lockedRound, lockedValue, validRound, validValue, proposals, blocks,
             prevotes.Contents(), precommits.Contents(), signedPrevotes, signedPrecommits)
    }

    ghost predicate Separate() { prevotes != precommits }

    ghost predicate Valid()
      reads this, prevotes, precommits
    {
      Separate() && Ledger(State())
    }

    /** `start_height` and `rebuild_power_snapshot`. */
    constructor (id: Validator, members: seq<Member>, minimum: nat)
      requires forall i, j :: 0 <= i < j < |members| ==> members[i].id != members[j].id
      ensures Valid() && fresh(prevotes) && fresh(precommits)
      ensures State() == StartHeight(id, power)
      ensures forall v :: v in power <==>
          exists i :: 0 <= i < |members| && members[i].id == v && !members[i].pendingActivation
                      && members[i].stake.Some? && members[i].stake.value >= minimum
      ensures forall i :: 0 <= i < |members| && members[i].id in power ==>
          members[i].stake == Some(power[members[i].id])
    {
      var eligible, stake := BuildSnapshot(members, minimum);
      me, power, total := id, eligible, stake;
      round, step := 0, Propose;
      lockedRound, lockedValue, validRound, validValue := None, None, None, None;
      proposals, blocks := map[], {};
      signedPrevotes, signedPrecommits := map[], map[];
      prevotes := new VoteTable();
      precommits := new VoteTable();
      NoVotesCounted(eligible);
    }

    // -------------------------------------------------------------------
    // Small steps
    // -------------------------------------------------------------------

    method StartRound(r: Round)
      requires Separate()
      modifies this
      ensures State() == E.StartRound(old(State()), r)
      ensures old(Valid()) ==> Valid()
    {
      hide Ledger, Tallied;
      round := r;
      step := Propose;
      SameLedger(old(State()), State());
    }

    /** `transition_to`, which reports whether the transition was one of the allowed ones. */
    method TransitionTo(s: Step) returns (valid: bool)
      requires Separate()
      modifies `step
      ensures State() == E.TransitionTo(old(State()), s)
      ensures old(Valid()) ==> Valid()
      ensures valid ==> step == s
      ensures !valid ==> step == old(step)
    {
      hide Ledger, Tallied;
      valid := match (step, s) {
        case (Propose, Prevote) => true
        case (Prevote, Precommit) => true
        case (Precommit, Commit) => true
        case (Propose, Commit) => true
        case (Prevote, Commit) => true
        case (Prevote, Prevote) => true
        case (Precommit, Precommit) => true
        case _ => false
      };
      if valid {
        step := s;
      }
      SameLedger(old(State()), State());
    }

    /** Lock on a block that has a polka in the current round. */
    method LockOn(h: Hash)
      requires Separate()
      modifies `validRound, `validValue, `lockedRound, `lockedValue
      ensures State() == E.LockOn(old(State()), h)
      ensures old(Valid()) ==> Valid()
    {
      hide Ledger, Tallied;
      validRound := Some(round);
      if h in blocks {
        validValue := Some(h);
      }
      lockedRound := Some(round);
      lockedValue := Some(h);
      SameLedger(old(State()), State());
    }

    // -------------------------------------------------------------------
    // Voting
    // -------------------------------------------------------------------

    /** `do_precommit`: at most one precommit a round. */
    method DoPrecommit(b: Ballot) returns (actions: seq<Action>)
      requires Separate()
      modifies this, precommits
      ensures Out(State(), actions) == E.DoPrecommit(old(State()), b)
      ensures old(Valid()) ==> Valid()
    {
      hide Ledger, Tallied, Counted, AddVote, E.TransitionTo, PowerOf, Supermajority;
      if round in signedPrecommits {
        return [];
      }
      SignPrecommitLedger(State(), b);
      var r := round;
      signedPrecommits := signedPrecommits[r := b];
      precommits.Add(power, r, b, me);
      assert State() == SignPrecommit(old(State()), b);
      actions := [BroadcastPrecommit(r, b)];
      if Supermajority(total, PowerOf(power, precommits.Contents(), r, b)) {
        if b.None? {
          StartRound(r + 1);
        } else if b.value in blocks {
          var _ := TransitionTo(Commit);
          actions := actions + [CommitBlock(r, b.value)];
        }
      }
    }

    /** `do_prevote`: at most one prevote a round, then a precommit if it completes a polka. */
    method DoPrevote(b: Ballot) returns (actions: seq<Action>)
      requires Separate()
      modifies this, prevotes, precommits
      ensures Out(State(), actions) == E.DoPrevote(old(State()), b)
      ensures old(Valid()) ==> Valid()
    {
      hide Ledger, Tallied, Counted, AddVote, E.TransitionTo, E.LockOn, E.DoPrecommit, PowerOf, Supermajority;
      if round in signedPrevotes {
        return [];
      }
      var _ := TransitionTo(Prevote);
      ghost var moved := State();
      TransitionSame(old(State()), Prevote);
      SignPrevoteLedger(moved, b);
      var r := round;
      signedPrevotes := signedPrevotes[r := b];
      prevotes.Add(power, r, b, me);
      assert State() == SignPrevote(moved, b);
      actions := [BroadcastPrevote(r, b)];
      if Supermajority(total, PowerOf(power, prevotes.Contents(), r, b)) {
        if b.Some? {
          LockOn(b.value);
        }
        var _ := TransitionTo(Precommit);
        var more := DoPrecommit(b);
        actions := actions + more;
      }
    }

    /** `has_polka_for`. */
    method HasPolkaFor(r: Round, b: Ballot) returns (polka: bool)
      ensures polka == E.HasPolkaFor(State(), r, b)
    {
      hide Supermajority;
      if (r, b) !in prevotes.buckets {
        return false;
      }
      var voters, sum, i := prevotes.buckets[(r, b)], 0, 0;
      assert voters[..0] == [];
      while i < |voters|
        invariant i <= |voters| && sum == VoterStake(power, voters[..i])
      {
        assert voters[..i + 1][..i] == voters[..i];
        if voters[i] in power {
          sum := sum + power[voters[i]];
        }
        i := i + 1;
      }
      assert voters[..i] == voters;
      polka := Supermajority(total, sum);
    }

    /** `prevote_for_current_round_proposal`. */
    method PrevoteForProposal(p: Proposal) returns (actions: seq<Action>)
      requires Separate()
      modifies this, prevotes, precommits
      ensures Out(State(), actions) == E.PrevoteForProposal(old(State()), p)
      ensures old(Valid()) ==> Valid()
    {
      hide Ledger, Tallied, E.DoPrevote, E.HasPolkaFor;
      if p.round != round || step != Propose {
        return [];
      }
      var ok := lockedRound.None? || lockedValue == Some(p.block);
      if !ok && p.validRound >= 0 && p.validRound > lockedRound.value {
        ok := HasPolkaFor(p.validRound, Some(p.block));
      }
      actions := DoPrevote(if ok then Some(p.block) else None);
    }

    // -------------------------------------------------------------------
    // Round skip
    // -------------------------------------------------------------------

    /** The catch-up loop of `check_round_skip`. */
    method CatchUp() returns (actions: seq<Action>)
      requires Separate()
      modifies this, prevotes, precommits
      ensures Out(State(), actions) == E.CatchUp(old(State()), 100)
      ensures old(Valid()) ==> Valid()
    {
      hide Ledger, Tallied, E.DoPrevote, E.PrevoteForProposal, E.CatchUp;
      actions := [];
      ghost var whole := E.CatchUp(State(), 100);
      AfterNone(whole);
      var i := 0;
      while i < 100
        invariant 0 <= i <= 100 && (old(Valid()) ==> Valid())
        invariant whole == After(actions, E.CatchUp(State(), 100 - i))
      {
        ghost var e := State();
        var r := round;
        CatchUpStep(e, 100 - i);
        if r in proposals {
          var prevoted := PrevoteForProposal(proposals[r]);
          actions := actions + prevoted;
          return;
        }
        var prevoted := DoPrevote(None);
        AfterAfter(actions, prevoted, E.CatchUp(State(), 100 - i - 1));
        actions := actions + prevoted;
        if round <= r {
          return;
        }
        i := i + 1;
      }
      CatchUpEnds(State());
      assert actions + [] == actions;
    }

    /** `check_round_skip`: once more than a third of the stake votes in later rounds, join the
        last of them. */
    method CheckRoundSkip() returns (actions: seq<Action>)
      requires Separate()
      modifies this, prevotes, precommits
      ensures Out(State(), actions) == E.CheckRoundSkip(old(State()))
      ensures old(Valid()) ==> Valid()
    {
      hide Ledger, Tallied, E.CatchUp, E.CheckRoundSkip, Stake;
      ghost var e := State();
      if total == 0 {
        NoSkip(e);
        return [];
      }
      var voters, highest := prevotes.Later(round, {}, round);
      voters, highest := precommits.Later(round, voters, highest);
      assert voters == FutureVoters(e);
      SkipIs(e, highest);
      if highest == round {
        return [];
      }
      var stake := SumStake(power, voters);
      actions := [];
      if stake * 3 > total {
        StartRound(highest);
        actions := CatchUp();
      }
    }

    method SkipIfAhead(r: Round) returns (actions: seq<Action>)
      requires Separate()
      modifies this, prevotes, precommits
      ensures Out(State(), actions) == E.SkipIfAhead(old(State()), r)
      ensures old(Valid()) ==> Valid()
    {
      hide Ledger, Tallied, E.CheckRoundSkip;
      actions := [];
      if r > round {
        actions := CheckRoundSkip();
      }
    }

    // -------------------------------------------------------------------
    // Events
    // -------------------------------------------------------------------

    /** `create_proposal`. */
    method CreateProposal(freshBlock: Hash) returns (actions: seq<Action>)
      requires Valid()
      modifies this, prevotes, precommits
      ensures Valid() && Out(State(), actions) == E.CreateProposal(old(State()), freshBlock)
    {
      hide Ledger, Tallied, E.DoPrevote;
      if step != Propose {
        return [];
      }
      var block, shown: Option<Round> := freshBlock, None;
      if lockedValue.Some? {
        if validValue != lockedValue && lockedValue.value !in blocks {
          return [];
        }
        block, shown := lockedValue.value, lockedRound;
      } else if validValue.Some? {
        block, shown := validValue.value, validRound;
      }
      var p := Proposal(round, block, if shown.Some? then shown.value else -1);
      blocks := blocks + {block};
      proposals := proposals[round := p];
      SameLedger(old(State()), State());
      var prevoted := DoPrevote(Some(block));
      actions := [BroadcastProposal(p)] + prevoted;
    }

    /** `on_proposal`. */
    method OnProposal(p: Proposal, checks: ProposalChecks) returns (actions: seq<Action>)
      requires Valid()
      modifies this, prevotes, precommits
      ensures Valid()
      ensures var acceptable :=
                && checks.signature && checks.leader && checks.blockSignature
                && (checks.parentTimestamp.Some? ==> checks.timestamp >= checks.parentTimestamp.value)
                && checks.timestamp <= checks.now + 30;
              Out(State(), actions) == E.OnProposal(old(State()), p, acceptable)
    {
      hide Ledger, Tallied, E.DoPrevote;
      if p.round < round || !checks.signature || !checks.leader || !checks.blockSignature {
        return [];
      }
      if checks.parentTimestamp.Some? && checks.timestamp < checks.parentTimestamp.value {
        return [];
      }
      if checks.timestamp > checks.now + MAX_AHEAD_SECS {
        return [];
      }
      blocks := blocks + {p.block};
      proposals := proposals[p.round := p];
      SameLedger(old(State()), State());
      if p.round > round || step != Propose {
        return [];
      }
      actions := PrevoteForProposal(p);
    }

    /** `process_current_round_proposal_if_present`. */
    method ReplayProposal() returns (actions: seq<Action>)
      requires Valid()
      modifies this, prevotes, precommits
      ensures Valid() && Out(State(), actions) == E.ReplayProposal(old(State()))
    {
      hide Ledger, Tallied, E.PrevoteForProposal;
      actions := [];
      if step == Propose && round in proposals {
        actions := PrevoteForProposal(proposals[round]);
      }
    }

    /** Rule 1 of `on_prevote`: a polka for a block in the current round. */
    method OnPolka(r: Round) returns (actions: seq<Action>)
      requires Separate() && Tallied(State())
      modifies this, precommits
      ensures Out(State(), actions) == E.OnPolka(old(State()), r)
      ensures old(Valid()) ==> Valid()
    {
      hide Ledger, Tallied, Counted, E.DoPrecommit, E.LockOn, E.TransitionTo, PowerOf, Supermajority;
      actions := [];
      if r == round && step == Prevote {
        TalliedParts(State());
        var found := prevotes.FindMajority(power, total, r);
        if found.Some? {
          PolkaIs(State(), r, found.value);
          LockOn(found.value);
          var _ := TransitionTo(Precommit);
          actions := DoPrecommit(found);
        }
      }
    }

    /** Rule 2 of `on_prevote`: a polka for nil in the current round. */
    method OnNilPolka(r: Round) returns (actions: seq<Action>)
      requires Separate()
      modifies this, precommits
      ensures Out(State(), actions) == E.OnNilPolka(old(State()), r)
      ensures old(Valid()) ==> Valid()
    {
      hide Ledger, Tallied, E.DoPrecommit, E.TransitionTo, PowerOf, Supermajority;
      actions := [];
      if r == round && step == Prevote && Supermajority(total, PowerOf(power, prevotes.Contents(), r, None)) {
        var _ := TransitionTo(Precommit);
        actions := DoPrecommit(None);
      }
    }

    /** `on_prevote`. `authentic` is the outcome of the signature check. The tables stay right unless
        a vote in the engine's own name passes it that the engine has not signed. */
    method OnPrevote(r: Round, b: Ballot, v: Validator, authentic: bool) returns (actions: seq<Action>)
      requires Valid()
      modifies this, prevotes, precommits
      ensures (authentic && v == me ==> r in old(signedPrevotes)) ==> Valid()
      ensures Out(State(), actions) == if authentic then E.OnPrevote(old(State()), r, b, v) else Out(old(State()), [])
    {
      hide Ledger, Tallied, Counted, AddVote, E.OnPolka, E.OnNilPolka, E.SkipIfAhead;
      if !authentic || v !in power {
        return [];
      }
      if (r, v) in prevotes.seen {
        return if prevotes.seen[(r, v)] == b then [] else [EquivocationDetected(r, v, prevotes.seen[(r, v)], b)];
      }
      NotOwn(State(), r, v);
      SeePrevoteLedger(State(), r, b, v);
      prevotes.Add(power, r, b, v);
      var a1 := OnPolka(r);
      var a2 := OnNilPolka(r);
      var a3 := SkipIfAhead(r);
      actions := a1 + a2 + a3;
    }

    /** The rest of `on_precommit`. */
    method AfterPrecommit(r: Round) returns (actions: seq<Action>)
      requires Separate()
      modifies this, prevotes, precommits
      ensures Out(State(), actions) == E.AfterPrecommit(old(State()), r)
      ensures old(Valid()) ==> Valid()
    {
      hide Ledger, Tallied, E.SkipIfAhead, PowerOf, Supermajority;
      if r == round && Supermajority(total, PowerOf(power, precommits.Contents(), r, None)) {
        StartRound(r + 1);
        return [];
      }
      actions := SkipIfAhead(r);
    }

    /** `on_precommit`. */
    method OnPrecommit(r: Round, b: Ballot, v: Validator, authentic: bool) returns (actions: seq<Action>)
      requires Valid()
      modifies this, prevotes, precommits
      ensures (authentic && v == me ==> r in old(signedPrecommits)) ==> Valid()
      ensures Out(State(), actions) == if authentic then E.OnPrecommit(old(State()), r, b, v) else Out(old(State()), [])
    {
      hide Ledger, Tallied, Counted, AddVote, E.AfterPrecommit, E.TransitionTo, PowerOf, Supermajority;
      if !authentic || v !in power {
        return [];
      }
      if (r, v) in precommits.seen {
        return if precommits.seen[(r, v)] == b then [] else [EquivocationDetected(r, v, precommits.seen[(r, v)], b)];
      }
      if step == Commit {
        return [];
      }
      NotOwn(State(), r, v);
      SeePrecommitLedger(State(), r, b, v);
      precommits.Add(power, r, b, v);
      TalliedParts(State());
      var found := precommits.FindMajority(power, total, r);
      actions := [];
      if found.Some? {
        CommitIs(State(), r, found.value);
        if found.value in blocks {
          var _ := TransitionTo(Commit);
          return [CommitBlock(r, found.value)];
        }
        actions := [RequestBlock(found.value)];
      }
      var more := AfterPrecommit(r);
      actions := actions + more;
    }

    /** `on_timeout`. */
    method OnTimeout(s: Step, r: Round) returns (actions: seq<Action>)
      requires Valid()
      modifies this, prevotes, precommits
      ensures Valid() && Out(State(), actions) == E.OnTimeout(old(State()), s, r)
    {
      hide Ledger, Tallied, E.DoPrevote, E.DoPrecommit, E.TransitionTo;
      actions := [];
      if r == round && s == step {
        match s
        case Propose =>
          actions := DoPrevote(None);
        case Prevote =>
          var _ := TransitionTo(Precommit);
          actions := DoPrecommit(None);
        case Precommit =>
          StartRound(round + 1);
        case Commit =>
      }
    }
  }

  // ---------------------------------------------------------------------
  // What the searches find
  // ---------------------------------------------------------------------

  lemma TalliedParts(e: Engine)
    requires Tallied(e)
    ensures e.total == Total(e.power) && Counted(e.power, e.prevotes) && Counted(e.power, e.precommits)
  {}

  lemma NotOwn(e: Engine, r: Round, v: Validator)
    requires Ledger(e)
    ensures v == e.me && r in e.signedPrevotes ==> (r, v) in e.prevotes.seen
    ensures v == e.me && r in e.signedPrecommits ==> (r, v) in e.precommits.seen
  {}

  lemma TransitionSame(e: Engine, s: Step)
    ensures SameTables(e, TransitionTo(e, s)) && TransitionTo(e, s).round == e.round
  {}

  /** The polka the state machine speaks of is the one the search finds. */
  lemma PolkaIs(e: Engine, r: Round, h: Hash)
    requires Tallied(e) && r == e.round && e.step == Prevote && PrevoteMajority(e, r, Some(h))
    ensures OnPolka(e, r) == DoPrecommit(TransitionTo(LockOn(e, h), Precommit), Some(h))
  {
    hide Counted, PowerOf, Supermajority, DoPrecommit, TransitionTo, LockOn;
    forall k: Hash | PrevoteMajority(e, r, Some(k)) ensures k == h {
      OneMajority(e.power, e.prevotes, r, Some(h), Some(k));
    }
  }

  lemma CommitIs(e: Engine, r: Round, h: Hash)
    requires Tallied(e) && PrecommitMajority(e, r, Some(h))
    ensures forall k: Hash :: PrecommitMajority(e, r, Some(k)) ==> k == h
  {
    hide Counted, PowerOf, Supermajority;
    forall k: Hash | PrecommitMajority(e, r, Some(k)) ensures k == h {
      OneMajority(e.power, e.precommits, r, Some(h), Some(k));
    }
  }

  lemma NoSkip(e: Engine)
    requires e.total == 0
    ensures CheckRoundSkip(e) == Out(e, [])
  {}

  /** The round the state machine skips to is the highest one the search finds. */
  lemma SkipIs(e: Engine, r: Round)
    requires HighestSeen(e, r) && r >= e.round && e.total > 0
    ensures CheckRoundSkip(e) ==
            if 3 * Stake(e.power, FutureVoters(e)) > e.total && r > e.round
            then CatchUp(E.StartRound(e, r), 100) else Out(e, [])
  {
    hide Stake, FutureVoters, CatchUp;
    forall k: Round | HighestSeen(e, k) && k > e.round ensures k == r {
    }
  }

  ghost function After(actions: seq<Action>, out: Out): Out {
    Out(out.engine, actions + out.actions)
  }

  lemma AfterNone(out: Out)
    ensures After([], out) == out
  {
    assert [] + out.actions == out.actions;
  }

  lemma CatchUpStep(e: Engine, n: nat)
    requires n > 0
    ensures CatchUp(e, n) ==
            if e.round in e.proposals then PrevoteForProposal(e, e.proposals[e.round])
            else if DoPrevote(e, None).engine.round > e.round
            then After(DoPrevote(e, None).actions, CatchUp(DoPrevote(e, None).engine, n - 1))
            else DoPrevote(e, None)
  {
    hide DoPrevote, PrevoteForProposal;
  }

  lemma CatchUpEnds(e: Engine)
    ensures CatchUp(e, 0) == Out(e, [])
  {}

  lemma AfterAfter(a: seq<Action>, b: seq<Action>, out: Out)
    ensures After(a, After(b, out)) == After(a + b, out)
  {
    assert a + (b + out.actions) == a + b + out.actions;
  }
}
