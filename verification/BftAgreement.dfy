/** Whole runs of the network at one height. */
module BftAgreement {
  import opened Bytes
  import opened BftVotes
  import opened BftEngine
  import opened BftSafety

  datatype Decision = Decision(validator: Validator, round: Round, block: Hash)

  /** The honest engines, every commit any of them ever reported, everyone any of them ever
      reported for signing two conflicting votes, and every proposal they ever broadcast. */
  datatype World = World(nodes: Nodes, decided: set<Decision>, accused: set<Validator>,
                         sent: set<(Validator, Proposal)>)

  datatype Event =
    | ProposalArrives(to: Validator, proposal: Proposal, acceptable: bool)
    | PrevoteArrives(to: Validator, round: Round, ballot: Ballot, from: Validator)
    | PrecommitArrives(to: Validator, round: Round, ballot: Ballot, from: Validator)
    | TimeoutFires(to: Validator, step: Step, round: Round)
    | OwnTurn(to: Validator, freshBlock: Hash)
    | ProposalReplayed(to: Validator)

  /** Signatures cannot be forged: a vote arriving in an honest validator's name is one it
      signed. Anything else may arrive, any number of times and in any order. */
  predicate Possible(nodes: Nodes, ev: Event) {
    && ev.to in nodes
    && (ev.PrevoteArrives? ==> Genuine(nodes, true, ev.round, ev.ballot, ev.from))
    && (ev.PrecommitArrives? ==> Genuine(nodes, false, ev.round, ev.ballot, ev.from))
  }

  ghost function Handle(e: Engine, ev: Event): Out {
    match ev
    case ProposalArrives(_, proposal, acceptable) => OnProposal(e, proposal, acceptable)
    case PrevoteArrives(_, r, b, from) => OnPrevote(e, r, b, from)
    case PrecommitArrives(_, r, b, from) => OnPrecommit(e, r, b, from)
    case TimeoutFires(_, s, r) => OnTimeout(e, s, r)
    case OwnTurn(_, freshBlock) => CreateProposal(e, freshBlock)
    case ProposalReplayed(_) => ReplayProposal(e)
  }

  function Commits(p: Validator, actions: seq<Action>): set<Decision> {
    set a | a in actions && a.CommitBlock? :: Decision(p, a.round, a.block)
  }

  function Accusations(actions: seq<Action>): set<Validator> {
    set a | a in actions && a.EquivocationDetected? :: a.validator
  }

  function Broadcasts(p: Validator, actions: seq<Action>): set<(Validator, Proposal)> {
    set a | a in actions && a.BroadcastProposal? :: (p, a.proposal)
  }

  ghost function Next(w: World, ev: Event): World
    requires ev.to in w.nodes
  {
    var out := Handle(w.nodes[ev.to], ev);
    World(w.nodes[ev.to := out.engine], w.decided + Commits(ev.to, out.actions),
          w.accused + Accusations(out.actions), w.sent + Broadcasts(ev.to, out.actions))
  }

  ghost predicate IsRun(w: World, events: seq<Event>)
    decreases events
  {
    events == [] || (Possible(w.nodes, events[0]) && IsRun(Next(w, events[0]), events[1..]))
  }

  ghost function After(w: World, events: seq<Event>): World
    requires IsRun(w, events)
    decreases events
  {
    if events == [] then w else After(Next(w, events[0]), events[1..])
  }

  ghost function Start(power: Power, honest: set<Validator>): World {
    World(map p | p in honest :: StartHeight(p, power), {}, {}, {})
  }

  // ---------------------------------------------------------------------
  // Runs that keep to a leader schedule
  // ---------------------------------------------------------------------

  /** Only the leader of a round proposes in it: a proposal passes the leader and signature checks
      only if that leader is Byzantine or has broadcast it, and only a leader takes its turn. */
  predicate Led(leader: Round -> Validator, w: World, ev: Event) {
    && (ev.ProposalArrives? && ev.acceptable ==>
          leader(ev.proposal.round) !in w.nodes || (leader(ev.proposal.round), ev.proposal) in w.sent)
    && (ev.OwnTurn? ==> ev.to in w.nodes && ev.to == leader(w.nodes[ev.to].round))
  }

  ghost predicate IsLedRun(leader: Round -> Validator, w: World, events: seq<Event>)
    decreases events
  {
    events == [] ||
    (Possible(w.nodes, events[0]) && Led(leader, w, events[0]) && IsLedRun(leader, Next(w, events[0]), events[1..]))
  }

  lemma {:induction false} LedRunIsRun(leader: Round -> Validator, w: World, events: seq<Event>)
    requires IsLedRun(leader, w, events)
    ensures IsRun(w, events)
    decreases events
  {
    hide Next, Led;
    if events != [] {
      LedRunIsRun(leader, Next(w, events[0]), events[1..]);
    }
  }

  // ---------------------------------------------------------------------
  // Every reachable world is sound
  // ---------------------------------------------------------------------

  ghost predicate Sound(power: Power, honest: set<Validator>, w: World) {
    && w.nodes.Keys == honest
    && Invariant(power, w.nodes)
    && (forall d :: d in w.decided ==> d.validator in honest && Certified(power, w.nodes, d.round, d.block))
    && w.accused !! honest
  }

  lemma StartSound(power: Power, honest: set<Validator>)
    ensures Sound(power, honest, Start(power, honest))
  {
    var w := Start(power, honest);
    NoVotesCounted(power);
    forall p | p in w.nodes ensures NodeOk(power, w.nodes, p) {
      assert w.nodes[p] == StartHeight(p, power);
      hide Counted, Polka, Quorum;
      assert forall r: Round, h: Hash :: !Precommitted(w.nodes[p], r, h);
    }
  }

  lemma HandleSafe(power: Power, nodes: Nodes, ev: Event)
    requires Invariant(power, nodes) && Possible(nodes, ev)
    ensures Safe(power, nodes, ev.to, Handle(nodes[ev.to], ev))
  {
    hide Invariant, Safe, OnProposal, OnPrevote, OnPrecommit, OnTimeout, CreateProposal, PrevoteForProposal, Genuine;
    var p := ev.to;
    match ev
    case ProposalArrives(_, proposal, acceptable) => OnProposalSafe(power, nodes, p, proposal, acceptable);
    case PrevoteArrives(_, r, b, from) => OnPrevoteSafe(power, nodes, p, r, b, from);
    case PrecommitArrives(_, r, b, from) => OnPrecommitSafe(power, nodes, p, r, b, from);
    case TimeoutFires(_, s, r) => OnTimeoutSafe(power, nodes, p, s, r);
    case OwnTurn(_, freshBlock) => CreateProposalSafe(power, nodes, p, freshBlock);
    case ProposalReplayed(_) =>
      NothingSafe(power, nodes, p);
      if nodes[p].round in nodes[p].proposals {
        PrevoteForProposalSafe(power, nodes, p, nodes[p].proposals[nodes[p].round]);
      }
  }

  ghost predicate NoAccusation(actions: seq<Action>) {
    forall a :: a in actions ==> !a.EquivocationDetected?
  }

  lemma VotingAccusesNobody(e: Engine, b: Ballot)
    ensures NoAccusation(DoPrecommit(e, b).actions) && NoAccusation(DoPrevote(e, b).actions)
  {
    hide PrevoteMajority, PrecommitMajority, AddVote, SignPrevote, SignPrecommit, LockOn, TransitionTo, StartRound;
    var signed := SignPrevote(TransitionTo(e, Prevote), b);
    var locked := if b.Some? then LockOn(signed, b.value) else signed;
    assert NoAccusation(DoPrecommit(TransitionTo(locked, Precommit), b).actions);
  }

  lemma {:induction false} CatchUpAccusesNobody(e: Engine, n: nat)
    ensures NoAccusation(CatchUp(e, n).actions)
    decreases n
  {
    hide DoPrevote, DoPrecommit, ShouldPrevote;
    if n > 0 {
      VotingAccusesNobody(e, None);
      if e.round in e.proposals {
        VotingAccusesNobody(e, Some(e.proposals[e.round].block));
      } else if DoPrevote(e, None).engine.round > e.round {
        CatchUpAccusesNobody(DoPrevote(e, None).engine, n - 1);
      }
    }
  }

  lemma SkipAccusesNobody(e: Engine, r: Round)
    ensures NoAccusation(SkipIfAhead(e, r).actions)
  {
    hide CatchUp, HighestSeen, FutureVoters;
    var out := SkipIfAhead(e, r);
    if out != Out(e, []) {
      var r': Round :| out == CatchUp(StartRound(e, r'), 100);
      CatchUpAccusesNobody(StartRound(e, r'), 100);
    }
  }

  /** Only conflicting ballots of one validator in one round are reported. */
  lemma PrevoteAccuses(e: Engine, r: Round, b: Ballot, v: Validator)
    ensures NoAccusation(OnPrevote(e, r, b, v).actions) ||
            ((r, v) in e.prevotes.seen && e.prevotes.seen[(r, v)] != b)
  {
    hide DoPrecommit, SkipIfAhead, PrevoteMajority, AddVote, LockOn, TransitionTo;
    if v in e.power && (r, v) !in e.prevotes.seen {
      var e1 := e.(prevotes := AddVote(e.power, e.prevotes, r, b, v));
      var o1 := OnPolka(e1, r);
      if o1 != Out(e1, []) {
        var h: Hash :| o1 == DoPrecommit(TransitionTo(LockOn(e1, h), Precommit), Some(h));
        VotingAccusesNobody(TransitionTo(LockOn(e1, h), Precommit), Some(h));
      }
      VotingAccusesNobody(TransitionTo(o1.engine, Precommit), None);
      var o2 := Then(o1, OnNilPolka(o1.engine, r));
      SkipAccusesNobody(o2.engine, r);
    }
  }

  lemma PrecommitAccuses(e: Engine, r: Round, b: Ballot, v: Validator)
    ensures NoAccusation(OnPrecommit(e, r, b, v).actions) ||
            ((r, v) in e.precommits.seen && e.precommits.seen[(r, v)] != b)
  {
    hide SkipIfAhead, PrecommitMajority, AddVote, TransitionTo, StartRound;
    SkipAccusesNobody(e.(precommits := AddVote(e.power, e.precommits, r, b, v)), r);
  }

  lemma OthersAccuseNobody(e: Engine, ev: Event)
    requires !ev.PrevoteArrives? && !ev.PrecommitArrives?
    ensures NoAccusation(Handle(e, ev).actions)
  {
    hide DoPrevote, DoPrecommit, ShouldPrevote, TransitionTo;
    match ev
    case ProposalArrives(_, proposal, _) =>
      var stored := e.(blocks := e.blocks + {proposal.block}, proposals := e.proposals[proposal.round := proposal]);
      VotingAccusesNobody(stored, Some(proposal.block));
      VotingAccusesNobody(stored, None);
    case TimeoutFires(_, s, r) =>
      VotingAccusesNobody(e, None);
      VotingAccusesNobody(TransitionTo(e, Precommit), None);
    case OwnTurn(_, freshBlock) =>
      var out := CreateProposal(e, freshBlock);
      if out != Out(e, []) {
        var proposal := out.actions[0].proposal;
        VotingAccusesNobody(e.(blocks := e.blocks + {proposal.block}, proposals := e.proposals[e.round := proposal]),
                            Some(proposal.block));
      }
    case ProposalReplayed(_) =>
      VotingAccusesNobody(e, None);
      if e.round in e.proposals {
        VotingAccusesNobody(e, Some(e.proposals[e.round].block));
      }
  }

  lemma SeenSoundOf(power: Power, nodes: Nodes, p: Validator)
    requires Invariant(power, nodes) && p in nodes
    ensures SeenSound(nodes, nodes[p])
  {
    assert NodeOk(power, nodes, p);
  }

  lemma HandleAccuses(power: Power, nodes: Nodes, ev: Event)
    requires Invariant(power, nodes) && Possible(nodes, ev)
    ensures Accusations(Handle(nodes[ev.to], ev).actions) !! nodes.Keys
  {
    hide Invariant, OnPrevote, OnPrecommit, OnProposal, OnTimeout, CreateProposal, ReplayProposal;
    var e := nodes[ev.to];
    SeenSoundOf(power, nodes, ev.to);
    if ev.PrevoteArrives? {
      PrevoteAccuses(e, ev.round, ev.ballot, ev.from);
      AccusesSender(e, ev);
    } else if ev.PrecommitArrives? {
      PrecommitAccuses(e, ev.round, ev.ballot, ev.from);
      AccusesSender(e, ev);
    } else {
      OthersAccuseNobody(e, ev);
    }
  }

  /** A vote handler accuses the vote's sender or nobody. */
  lemma AccusesSender(e: Engine, ev: Event)
    requires ev.PrevoteArrives? || ev.PrecommitArrives?
    ensures NoAccusation(Handle(e, ev).actions) || Accusations(Handle(e, ev).actions) == {ev.from}
  {
    hide OnPolka, OnNilPolka, SkipIfAhead, AfterPrecommit, PrecommitMajority, AddVote;
    if ev.PrevoteArrives? {
      PrevoteAccuses(e, ev.round, ev.ballot, ev.from);
    } else {
      PrecommitAccuses(e, ev.round, ev.ballot, ev.from);
    }
  }

  lemma NextSound(power: Power, honest: set<Validator>, w: World, ev: Event)
    requires Sound(power, honest, w) && Possible(w.nodes, ev)
    ensures Sound(power, honest, Next(w, ev))
  {
    hide Invariant, Handle, Certified, Possible;
    var p := ev.to;
    assert p in w.nodes by {
      PossibleTo(w.nodes, ev);
    }
    var out := Handle(w.nodes[p], ev);
    HandleSafe(power, w.nodes, ev);
    HandleAccuses(power, w.nodes, ev);
    var w' := Next(w, ev);
    forall d | d in w'.decided ensures d.validator in honest && Certified(power, w'.nodes, d.round, d.block) {
      if d in w.decided {
        CertifiedStays(power, w.nodes, p, out.engine, d.round, d.block);
      }
    }
  }

  lemma PossibleTo(nodes: Nodes, ev: Event)
    requires Possible(nodes, ev)
    ensures ev.to in nodes
  {}

  lemma {:induction false} RunSound(power: Power, honest: set<Validator>, w: World, events: seq<Event>)
    requires Sound(power, honest, w) && IsRun(w, events)
    ensures Sound(power, honest, After(w, events))
    decreases events
  {
    hide Sound, Next, Possible;
    if events != [] {
      PossibleTo(w.nodes, events[0]);
      NextSound(power, honest, w, events[0]);
      RunSound(power, honest, Next(w, events[0]), events[1..]);
    }
  }

  // ---------------------------------------------------------------------
  // The theorems
  // ---------------------------------------------------------------------

  /** Agreement. If any two quorums share an honest validator, then in every run all blocks
      committed by honest validators at the height are the same. */
  lemma Agreement(power: Power, honest: set<Validator>, events: seq<Event>, d1: Decision, d2: Decision)
    requires Resilient(power, honest) && IsRun(Start(power, honest), events)
    requires d1 in After(Start(power, honest), events).decided && d2 in After(Start(power, honest), events).decided
    ensures d1.block == d2.block
  {
    hide Invariant, Certified, Start, Resilient;
    StartSound(power, honest);
    RunSound(power, honest, Start(power, honest), events);
    var nodes := After(Start(power, honest), events).nodes;
    if d1.round <= d2.round {
      CertificatesAgree(power, nodes, d1.round, d1.block, d2.round, d2.block);
    } else {
      CertificatesAgree(power, nodes, d2.round, d2.block, d1.round, d1.block);
    }
  }

  /** Accuracy. In every run, however many validators are Byzantine, no honest validator is
      ever reported for equivocation. */
  lemma Accuracy(power: Power, honest: set<Validator>, events: seq<Event>)
    requires IsRun(Start(power, honest), events)
    ensures After(Start(power, honest), events).accused !! honest
  {
    hide Invariant, Certified, Start;
    StartSound(power, honest);
    RunSound(power, honest, Start(power, honest), events);
  }

  /** The locking rule. In every run, an honest validator that has precommitted `h` in round
      `r` prevotes in a later round only `h`, nil, or a block with two thirds of the prevotes,
      seen by this validator, in some round after `r`. */
  lemma LockingRule(power: Power, honest: set<Validator>, events: seq<Event>, p: Validator, r: Round, h: Hash,
                    r': Round)
    requires IsRun(Start(power, honest), events) && p in honest
    requires var nodes := After(Start(power, honest), events).nodes;
             p in nodes && Precommitted(nodes[p], r, h) && r' in nodes[p].signedPrevotes && r' > r
    ensures PrevoteExcused(power, After(Start(power, honest), events).nodes[p], r, h, r')
  {
    hide Certified, Start, PrevoteExcused, Polka, Quorum;
    StartSound(power, honest);
    RunSound(power, honest, Start(power, honest), events);
    assert NodeOk(power, After(Start(power, honest), events).nodes, p);
  }
}
