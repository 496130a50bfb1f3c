/**
  Over whole runs: a validator that sends two conflicting votes to one honest validator is
  reported, and an honest validator votes for every proposal it is free to vote for.
*/
module BftAccountability {
  import opened Bytes
  import opened BftVotes
  import opened BftEngine
  import opened BftNode
  import opened BftSafety
  import opened BftAgreement
  import opened BftResponses

  // ---------------------------------------------------------------------
  // Nothing seen from others is forgotten
  // ---------------------------------------------------------------------

  /** The first ballots seen from validators other than `me` stay. */
  predicate StillSeen(me: Validator, votes: Votes, votes': Votes) {
    forall k :: k in votes.seen && k.1 != me ==> k in votes'.seen && votes'.seen[k] == votes.seen[k]
  }

  ghost predicate Remembers(e: Engine, e': Engine) {
    && e'.me == e.me && e'.power == e.power && (Filed(e) ==> Filed(e'))
    && StillSeen(e.me, e.prevotes, e'.prevotes) && StillSeen(e.me, e.precommits, e'.precommits)
  }

  lemma RememberOn(e1: Engine, e2: Engine, e3: Engine)
    requires Remembers(e1, e2) && Remembers(e2, e3)
    ensures Remembers(e1, e3)
  {
    hide Filed;
  }

  lemma VotesKept(me: Validator, power: Power, votes: Votes, r: Round, b: Ballot, v: Validator)
    requires v == me || (r, v) !in votes.seen
    ensures StillSeen(me, votes, AddVote(power, votes, r, b, v))
  {}

  lemma PrecommitRemembers(e: Engine, b: Ballot)
    ensures Remembers(e, DoPrecommit(e, b).engine)
  {
    hide AddVote, PrecommitMajority, StillSeen;
    VotesKept(e.me, e.power, e.precommits, e.round, b, e.me);
    Itself(e);
  }

  lemma Itself(e: Engine)
    ensures StillSeen(e.me, e.prevotes, e.prevotes) && StillSeen(e.me, e.precommits, e.precommits)
  {}

  lemma PrevoteRemembers(e: Engine, b: Ballot)
    ensures Remembers(e, DoPrevote(e, b).engine)
  {
    hide AddVote, PrevoteMajority, StillSeen, DoPrecommit;
    VotesKept(e.me, e.power, e.prevotes, e.round, b, e.me);
    Itself(e);
    if e.round !in e.signedPrevotes {
      var signed := SignPrevote(TransitionTo(e, Prevote), b);
      assert Remembers(e, signed);
      var ready := TransitionTo(if b.Some? then LockOn(signed, b.value) else signed, Precommit);
      assert Remembers(e, ready);
      PrecommitRemembers(ready, b);
      RememberOn(e, ready, DoPrecommit(ready, b).engine);
    }
  }

  lemma ProposalRemembers(e: Engine, p: Proposal)
    ensures Remembers(e, PrevoteForProposal(e, p).engine)
  {
    hide DoPrevote, ShouldPrevote, StillSeen;
    Itself(e);
    PrevoteRemembers(e, Some(p.block));
    PrevoteRemembers(e, None);
  }

  lemma {:induction false} CatchUpRemembers(e: Engine, n: nat)
    ensures Remembers(e, CatchUp(e, n).engine)
    decreases n
  {
    hide DoPrevote, PrevoteForProposal, StillSeen, Remembers;
    RemembersItself(e);
    if n > 0 {
      if e.round in e.proposals {
        ProposalRemembers(e, e.proposals[e.round]);
      } else {
        PrevoteRemembers(e, None);
        CatchUpRemembers(DoPrevote(e, None).engine, n - 1);
        RememberOn(e, DoPrevote(e, None).engine, CatchUp(DoPrevote(e, None).engine, n - 1).engine);
      }
    }
  }

  lemma RemembersItself(e: Engine)
    ensures Remembers(e, e)
  {}

  lemma SkipRemembers(e: Engine, r: Round)
    ensures Remembers(e, SkipIfAhead(e, r).engine)
  {
    hide CatchUp, HighestSeen, FutureVoters, StillSeen;
    Itself(e);
    var out := SkipIfAhead(e, r);
    if out != Out(e, []) {
      var r': Round :| out == CatchUp(StartRound(e, r'), 100);
      CatchUpRemembers(StartRound(e, r'), 100);
    }
  }

  lemma OnPrevoteRemembers(e: Engine, r: Round, b: Ballot, v: Validator)
    ensures Remembers(e, OnPrevote(e, r, b, v).engine)
    ensures v in e.power && v != e.me ==>
              (r, v) in OnPrevote(e, r, b, v).engine.prevotes.seen &&
              ((r, v) !in e.prevotes.seen ==> OnPrevote(e, r, b, v).engine.prevotes.seen[(r, v)] == b)
  {
    hide DoPrecommit, SkipIfAhead, PrevoteMajority, LockOn, TransitionTo;
    if v in e.power && (r, v) !in e.prevotes.seen {
      var e1 := e.(prevotes := AddVote(e.power, e.prevotes, r, b, v));
      assert Remembers(e, e1) && (r, v) in e1.prevotes.seen && e1.prevotes.seen[(r, v)] == b by {
        VotesKept(e.me, e.power, e.prevotes, r, b, v);
      }
      var o1 := OnPolka(e1, r);
      PolkaRemembers(e1, r);
      NilPolkaRemembers(o1.engine, r);
      var e2 := OnNilPolka(o1.engine, r).engine;
      SkipRemembers(e2, r);
      hide StillSeen, AddVote, Filed;
      RememberOn(e1, o1.engine, e2);
      RememberOn(e1, e2, SkipIfAhead(e2, r).engine);
      RememberOn(e, e1, SkipIfAhead(e2, r).engine);
      SeenOn(e1, SkipIfAhead(e2, r).engine, r, v);
    }
  }

  lemma SeenOn(e: Engine, e': Engine, r: Round, v: Validator)
    requires Remembers(e, e')
    ensures v != e.me && (r, v) in e.prevotes.seen ==>
              (r, v) in e'.prevotes.seen && e'.prevotes.seen[(r, v)] == e.prevotes.seen[(r, v)]
  {}

  lemma PolkaRemembers(e: Engine, r: Round)
    ensures Remembers(e, OnPolka(e, r).engine)
  {
    hide DoPrecommit, PrevoteMajority, StillSeen;
    Itself(e);
    var out := OnPolka(e, r);
    if out != Out(e, []) {
      var h: Hash :| out == DoPrecommit(TransitionTo(LockOn(e, h), Precommit), Some(h));
      PrecommitRemembers(TransitionTo(LockOn(e, h), Precommit), Some(h));
    }
  }

  lemma NilPolkaRemembers(e: Engine, r: Round)
    ensures Remembers(e, OnNilPolka(e, r).engine)
  {
    hide DoPrecommit, PrevoteMajority, StillSeen;
    Itself(e);
    PrecommitRemembers(TransitionTo(e, Precommit), None);
  }

  lemma AfterPrecommitRemembers(e: Engine, r: Round)
    ensures Remembers(e, AfterPrecommit(e, r).engine)
  {
    hide SkipIfAhead, PrecommitMajority, StillSeen;
    Itself(e);
    SkipRemembers(e, r);
  }

  /** Recording a precommit: whatever follows, the engine remembers it. */
  lemma OnPrecommitIs(e: Engine, r: Round, b: Ballot, v: Validator)
    requires v in e.power && (r, v) !in e.precommits.seen && e.step != Commit
    ensures var e1 := e.(precommits := AddVote(e.power, e.precommits, r, b, v));
            Remembers(e1, OnPrecommit(e, r, b, v).engine)
  {
    hide AfterPrecommit, PrecommitMajority, StillSeen, AddVote;
    var e1 := e.(precommits := AddVote(e.power, e.precommits, r, b, v));
    Itself(e1);
    AfterPrecommitRemembers(e1, r);
  }

  lemma OnPrecommitRemembers(e: Engine, r: Round, b: Ballot, v: Validator)
    ensures Remembers(e, OnPrecommit(e, r, b, v).engine)
    ensures v in e.power && v != e.me && e.step != Commit ==>
              (r, v) in OnPrecommit(e, r, b, v).engine.precommits.seen &&
              ((r, v) !in e.precommits.seen ==> OnPrecommit(e, r, b, v).engine.precommits.seen[(r, v)] == b)
  {
    if v in e.power && (r, v) !in e.precommits.seen && e.step != Commit {
      OnPrecommitIs(e, r, b, v);
      hide OnPrecommit;
      var e1 := e.(precommits := AddVote(e.power, e.precommits, r, b, v));
      VotesKept(e.me, e.power, e.precommits, r, b, v);
      RememberOn(e, e1, OnPrecommit(e, r, b, v).engine);
    } else {
      OnPrecommitQuiet(e, r, b, v);
    }
  }

  lemma OnPrecommitQuiet(e: Engine, r: Round, b: Ballot, v: Validator)
    requires v !in e.power || (r, v) in e.precommits.seen || e.step == Commit
    ensures OnPrecommit(e, r, b, v).engine == e
  {
    hide AfterPrecommit, PrecommitMajority, AddVote;
  }

  lemma HandleRemembers(e: Engine, ev: Event)
    ensures Remembers(e, Handle(e, ev).engine)
  {
    hide DoPrevote, DoPrecommit, OnPrevote, OnPrecommit, PrevoteForProposal, StillSeen;
    Itself(e);
    match ev
    case ProposalArrives(_, p, _) =>
      ProposalRemembers(e.(blocks := e.blocks + {p.block}, proposals := e.proposals[p.round := p]), p);
    case PrevoteArrives(_, r, b, v) => OnPrevoteRemembers(e, r, b, v);
    case PrecommitArrives(_, r, b, v) => OnPrecommitRemembers(e, r, b, v);
    case TimeoutFires(_, s, r) =>
      PrevoteRemembers(e, None);
      PrecommitRemembers(TransitionTo(e, Precommit), None);
    case OwnTurn(_, freshBlock) =>
      var out := CreateProposal(e, freshBlock);
      if out != Out(e, []) {
        var p := out.actions[0].proposal;
        PrevoteRemembers(e.(blocks := e.blocks + {p.block}, proposals := e.proposals[e.round := p]), Some(p.block));
      }
    case ProposalReplayed(_) =>
      if e.round in e.proposals {
        ProposalRemembers(e, e.proposals[e.round]);
      }
  }

  // ---------------------------------------------------------------------
  // Conflicting votes are reported
  // ---------------------------------------------------------------------

  /** `e` has a ballot of `v` in the round of the vote, and it is not `b`. */
  predicate Conflicts(e: Engine, prevote: bool, r: Round, b: Ballot, v: Validator) {
    var seen := if prevote then e.prevotes.seen else e.precommits.seen;
    v in e.power && (r, v) in seen && seen[(r, v)] != b
  }

  function Vote(prevote: bool, p: Validator, r: Round, b: Ballot, v: Validator): Event {
    if prevote then PrevoteArrives(p, r, b, v) else PrecommitArrives(p, r, b, v)
  }

  function FirstBallot(e: Engine, prevote: bool, r: Round, v: Validator): Ballot
    requires (r, v) in if prevote then e.prevotes.seen else e.precommits.seen
  {
    if prevote then e.prevotes.seen[(r, v)] else e.precommits.seen[(r, v)]
  }

  /** A conflicting ballot is reported together with the first one. */
  lemma ConflictReported(w: World, prevote: bool, p: Validator, r: Round, b: Ballot, v: Validator)
    requires p in w.nodes && Conflicts(w.nodes[p], prevote, r, b, v)
    ensures var actions := Handle(w.nodes[p], Vote(prevote, p, r, b, v)).actions;
            EquivocationDetected(r, v, FirstBallot(w.nodes[p], prevote, r, v), b) in actions
    ensures v in Next(w, Vote(prevote, p, r, b, v)).accused
  {
    hide OnPolka, OnNilPolka, SkipIfAhead, AfterPrecommit, PrecommitMajority, AddVote;
    var e := w.nodes[p];
    var report := EquivocationDetected(r, v, FirstBallot(e, prevote, r, v), b);
    assert report in Handle(e, Vote(prevote, p, r, b, v)).actions && report.validator == v;
  }

  /** After a vote of `v` has arrived, any other ballot of that round conflicts or `v` is accused. */
  ghost predicate Recorded(w: World, prevote: bool, p: Validator, r: Round, b: Ballot, v: Validator) {
    && p in w.nodes && w.nodes[p].me != v && v in w.nodes[p].power
    && var seen := if prevote then w.nodes[p].prevotes.seen else w.nodes[p].precommits.seen;
       (r, v) in seen && (seen[(r, v)] != b ==> v in w.accused)
  }

  lemma FirstRecorded(w: World, prevote: bool, p: Validator, r: Round, b: Ballot, v: Validator)
    requires p in w.nodes && v in w.nodes[p].power && v != w.nodes[p].me
    requires prevote || w.nodes[p].step != Commit
    ensures Recorded(Next(w, Vote(prevote, p, r, b, v)), prevote, p, r, b, v)
  {
    var e := w.nodes[p];
    if Conflicts(e, prevote, r, b, v) {
      ConflictReported(w, prevote, p, r, b, v);
    }
    if prevote {
      OnPrevoteRemembers(e, r, b, v);
    } else {
      OnPrecommitRemembers(e, r, b, v);
    }
    hide OnPrevote, OnPrecommit, Filed;
  }

  lemma RecordedNext(w: World, ev: Event, prevote: bool, p: Validator, r: Round, b: Ballot, v: Validator)
    requires Possible(w.nodes, ev) && Recorded(w, prevote, p, r, b, v)
    ensures Recorded(Next(w, ev), prevote, p, r, b, v)
  {
    hide Handle, Filed, Genuine;
    HandleRemembers(w.nodes[ev.to], ev);
  }

  lemma {:induction false} RecordedStays(w: World, events: seq<Event>, prevote: bool, p: Validator, r: Round, b: Ballot,
                                         v: Validator)
    requires IsRun(w, events) && Recorded(w, prevote, p, r, b, v)
    ensures Recorded(After(w, events), prevote, p, r, b, v)
    decreases events
  {
    hide Next, Recorded, Possible;
    if events != [] {
      PossibleTo(w.nodes, events[0]);
      RecordedNext(w, events[0], prevote, p, r, b, v);
      RecordedStays(Next(w, events[0]), events[1..], prevote, p, r, b, v);
    }
  }

  lemma {:induction false} AccusedStays(w: World, events: seq<Event>, v: Validator)
    requires IsRun(w, events) && v in w.accused
    ensures v in After(w, events).accused
    decreases events
  {
    hide Handle, Possible;
    if events != [] {
      PossibleTo(w.nodes, events[0]);
      AccusedStays(Next(w, events[0]), events[1..], v);
    }
  }

  /** Accountability. However a run goes on, if an honest validator is sent two different ballots of
      one kind for one round by another eligible validator, that validator is reported; of
      precommits only if the first does not find the engine committed. */
  lemma Accountability(w: World, first: Event, between: seq<Event>, second: Event, rest: seq<Event>,
                       prevote: bool, p: Validator, r: Round, b: Ballot, c: Ballot, v: Validator)
    requires first == Vote(prevote, p, r, b, v) && second == Vote(prevote, p, r, c, v) && b != c
    requires IsRun(w, [first] + between + [second] + rest)
    requires p in w.nodes && v in w.nodes[p].power && v != w.nodes[p].me && (prevote || w.nodes[p].step != Commit)
    ensures v in After(w, [first] + between + [second] + rest).accused
  {
    hide Next, Recorded, Possible, IsRun, After;
    var w1 := Next(w, first);
    var tail := between + [second] + rest;
    assert [first] + between + [second] + rest == [first] + tail;
    StepRun(w, first, tail);
    FirstRecorded(w, prevote, p, r, b, v);
    assert tail == between + ([second] + rest);
    SplitRun(w1, between, [second] + rest);
    RecordedStays(w1, between, prevote, p, r, b, v);
    var w2 := After(w1, between);
    StepRun(w2, second, rest);
    SecondReported(w2, prevote, p, r, b, c, v);
    AccusedStays(Next(w2, second), rest, v);
  }

  lemma SecondReported(w: World, prevote: bool, p: Validator, r: Round, b: Ballot, c: Ballot, v: Validator)
    requires Recorded(w, prevote, p, r, b, v) && b != c
    ensures p in w.nodes && v in Next(w, Vote(prevote, p, r, c, v)).accused
  {
    hide Handle;
    if Conflicts(w.nodes[p], prevote, r, c, v) {
      ConflictReported(w, prevote, p, r, c, v);
    }
  }

  lemma StepRun(w: World, ev: Event, rest: seq<Event>)
    requires IsRun(w, [ev] + rest)
    ensures Possible(w.nodes, ev) && ev.to in w.nodes && IsRun(Next(w, ev), rest)
    ensures After(w, [ev] + rest) == After(Next(w, ev), rest)
  {
    hide Next;
    var all := [ev] + rest;
    assert all[0] == ev && all[1..] == rest;
  }

  lemma {:induction false} SplitRun(w: World, some: seq<Event>, more: seq<Event>)
    requires IsRun(w, some + more)
    ensures IsRun(w, some) && IsRun(After(w, some), more)
    ensures After(w, some + more) == After(After(w, some), more)
    decreases some
  {
    hide Next, Possible;
    if some == [] {
      assert some + more == more;
    } else {
      PossibleTo(w.nodes, some[0]);
      assert (some + more)[0] == some[0] && (some + more)[1..] == some[1..] + more;
      SplitRun(Next(w, some[0]), some[1..], more);
    }
  }

  // ---------------------------------------------------------------------
  // What every run keeps besides
  // ---------------------------------------------------------------------

  lemma {:induction false} FiledStays(w: World, events: seq<Event>, p: Validator)
    requires IsRun(w, events) && p in w.nodes && Filed(w.nodes[p])
    ensures p in After(w, events).nodes && Filed(After(w, events).nodes[p])
    decreases events
  {
    hide Handle, Possible, Filed, StillSeen;
    if events != [] {
      PossibleTo(w.nodes, events[0]);
      HandleRemembers(w.nodes[events[0].to], events[0]);
      FiledStays(Next(w, events[0]), events[1..], p);
    }
  }

  /** After every run an honest validator's tallies are right and its proposals filed. */
  lemma RunTallied(power: Power, honest: set<Validator>, events: seq<Event>, p: Validator)
    requires IsRun(Start(power, honest), events) && p in honest
    ensures var w := After(Start(power, honest), events);
            p in w.nodes && Tallied(w.nodes[p]) && Filed(w.nodes[p]) && w.nodes[p].power == power
  {
    hide Counted, Certified, Next, SeenSound, Justified, Locking, Committed, IsRun, After;
    StartSound(power, honest);
    RunSound(power, honest, Start(power, honest), events);
    FiledStays(Start(power, honest), events, p);
    assert NodeOk(power, After(Start(power, honest), events).nodes, p);
  }

  /** The locking rule, the other way. After every run, the leader's proposal of the round makes an
      honest validator that has yet to prevote there sign its block if and only if it is free to:
      a lock is given up for the prevotes of a quorum in a later round. Otherwise it signs nil. */
  lemma LockGivenUp(power: Power, honest: set<Validator>, events: seq<Event>, p: Validator, proposal: Proposal)
    requires IsRun(Start(power, honest), events) && p in honest
    requires var nodes := After(Start(power, honest), events).nodes;
             p in nodes && nodes[p].step == Propose && nodes[p].round == proposal.round &&
             proposal.round !in nodes[p].signedPrevotes
    ensures var w := After(Start(power, honest), events);
            var signed := Next(w, ProposalArrives(p, proposal, true)).nodes[p].signedPrevotes;
            && proposal.round in signed
            && signed[proposal.round] == if Free(w.nodes[p], proposal) then Some(proposal.block) else None
  {
    hide Counted, IsRun, After, Start, PrevoteForProposal, VotersFor, Quorum;
    RunTallied(power, honest, events, p);
    var e := After(Start(power, honest), events).nodes[p];
    var stored := e.(blocks := e.blocks + {proposal.block}, proposals := e.proposals[proposal.round := proposal]);
    ProposalBallot(stored, proposal);
  }
}
