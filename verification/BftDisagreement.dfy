/**
  Agreement cannot be had for less, whoever leads the rounds: whenever two quorums share no
  honest validator, some run makes one honest validator commit the leader's block of round 0
  and another one the leader's block of round 1.
*/
module BftDisagreement {
  import opened Bytes
  import opened BftVotes
  import opened BftEngine
  import opened BftSafety
  import opened BftAgreement
  import opened BftOneRound

  type Leader = Round -> Validator

  // ---------------------------------------------------------------------
  // Putting runs together
  // ---------------------------------------------------------------------

  ghost predicate ArrivesAt(leader: Leader, w: World, events: seq<Event>, w': World) {
    IsLedRun(leader, w, events) && (LedRunIsRun(leader, w, events); After(w, events) == w')
  }

  ghost predicate Reaches(leader: Leader, w: World, w': World) {
    exists events: seq<Event> :: ArrivesAt(leader, w, events, w')
  }

  lemma {:induction false} RunConcat(leader: Leader, w: World, first: seq<Event>, mid: World, second: seq<Event>,
                                     w': World)
    requires ArrivesAt(leader, w, first, mid) && ArrivesAt(leader, mid, second, w')
    ensures ArrivesAt(leader, w, first + second, w')
    decreases first
  {
    hide Next, Led;
    if first == [] {
      assert first + second == second;
    } else {
      RunConcat(leader, Next(w, first[0]), first[1..], mid, second, w');
      assert (first + second)[1..] == first[1..] + second && (first + second)[0] == first[0];
    }
  }

  lemma Stay(leader: Leader, w: World)
    ensures Reaches(leader, w, w)
  {
    assert ArrivesAt(leader, w, [], w);
  }

  lemma OneStep(leader: Leader, w: World, ev: Event)
    requires Possible(w.nodes, ev) && Led(leader, w, ev)
    ensures Reaches(leader, w, Next(w, ev))
  {
    hide Next, Led;
    var events, w' := [ev], Next(w, ev);
    assert events[1..] == [] && events[0] == ev;
    assert IsLedRun(leader, w', events[1..]) && IsRun(w', events[1..]) && After(w', events[1..]) == w';
    assert IsLedRun(leader, w, events) && IsRun(w, events);
    assert After(w, events) == After(w', events[1..]);
    assert ArrivesAt(leader, w, events, w');
  }

  lemma Onward(leader: Leader, a: World, b: World, c: World)
    requires Reaches(leader, a, b) && Reaches(leader, b, c)
    ensures Reaches(leader, a, c)
  {
    hide ArrivesAt;
    var first :| ArrivesAt(leader, a, first, b);
    var second :| ArrivesAt(leader, b, second, c);
    RunConcat(leader, a, first, b, second, c);
  }

  /** Only engines in `moved` have changed, and no decision or broadcast is forgotten. */
  ghost predicate Only(w: World, w': World, moved: set<Validator>) {
    && w'.nodes.Keys == w.nodes.Keys && w.decided <= w'.decided && w.sent <= w'.sent
    && forall p :: p in w.nodes && p !in moved ==> w'.nodes[p] == w.nodes[p]
  }

  /** A led run from `w` to `w'` in which only `moved` have changed. */
  ghost predicate Goes(leader: Leader, w: World, w': World, moved: set<Validator>) {
    Reaches(leader, w, w') && Only(w, w', moved)
  }

  lemma GoesNowhere(leader: Leader, w: World)
    ensures Goes(leader, w, w, {})
  {
    Stay(leader, w);
  }

  lemma GoesOn(leader: Leader, a: World, b: World, c: World, s: set<Validator>, t: set<Validator>)
    requires Goes(leader, a, b, s) && Goes(leader, b, c, t)
    ensures Goes(leader, a, c, s + t)
  {
    hide Reaches;
    Onward(leader, a, b, c);
  }

  lemma Moves(leader: Leader, g: Plan, w: World, ev: Event)
    requires Possible(w.nodes, ev) && Led(leader, w, ev)
    ensures Goes(leader, w, Next(w, ev), {ev.to})
    ensures var out := Handle(w.nodes[ev.to], ev);
            && Next(w, ev).nodes[ev.to] == out.engine
            && (CommitBlock(g.round, g.block) in out.actions ==> Decides(g, Next(w, ev), ev.to))
            && (BroadcastProposal(ProposalOf(g)) in out.actions ==> (ev.to, ProposalOf(g)) in Next(w, ev).sent)
  {
    hide Handle, Reaches, Led;
    OneStep(leader, w, ev);
    var actions := Handle(w.nodes[ev.to], ev).actions;
    if CommitBlock(g.round, g.block) in actions {
      assert Decision(ev.to, g.round, g.block) in Commits(ev.to, actions);
    }
    if BroadcastProposal(ProposalOf(g)) in actions {
      assert (ev.to, ProposalOf(g)) in Broadcasts(ev.to, actions);
    }
  }

  // ---------------------------------------------------------------------
  // Everyone prevotes
  // ---------------------------------------------------------------------

  predicate Decides(g: Plan, w: World, p: Validator) {
    Decision(p, g.round, g.block) in w.decided
  }

  predicate Settled(g: Plan, w: World, p: Validator)
    requires p in w.nodes
  {
    if w.nodes[p].step == Commit then Decides(g, w, p) else Undecided(g, w.nodes[p])
  }

  ghost predicate Primed(g: Plan, w: World, p: Validator) {
    p in w.nodes && Voting(g, p, w.nodes[p]) && Settled(g, w, p)
  }

  ghost predicate AllPrimed(g: Plan, w: World, s: set<Validator>) {
    forall p :: p in s ==> Primed(g, w, p)
  }

  ghost predicate AllFresh(g: Plan, w: World, s: set<Validator>) {
    forall p :: p in s ==> p in w.nodes && Fresh(g.power, p, w.nodes[p], g.round)
  }

  lemma PrimedStays(g: Plan, w: World, w': World, moved: set<Validator>, s: set<Validator>)
    requires AllPrimed(g, w, s) && Only(w, w', moved) && moved !! s
    ensures AllPrimed(g, w', s)
  {
    hide Voting, Undecided;
    forall p | p in s ensures Primed(g, w', p) {
      assert Primed(g, w, p);
    }
  }

  lemma FreshStays(g: Plan, w: World, w': World, moved: set<Validator>, s: set<Validator>)
    requires AllFresh(g, w, s) && Only(w, w', moved) && moved !! s
    ensures AllFresh(g, w', s)
  {
    hide Fresh;
  }

  /** The round's proposal may be delivered: its leader is Byzantine or has broadcast it. */
  predicate Deliverable(leader: Leader, g: Plan, w: World) {
    leader(g.round) !in w.nodes || (leader(g.round), ProposalOf(g)) in w.sent
  }

  /** An honest leader takes its turn; for a Byzantine one there is nothing to do. */
  lemma TakeTurn(leader: Leader, g: Plan, w: World) returns (w': World)
    requires var l := leader(g.round); l in w.nodes ==> AllFresh(g, w, {l})
    ensures Goes(leader, w, w', {leader(g.round)}) && Deliverable(leader, g, w')
    ensures var l := leader(g.round);
            l in w.nodes ==> Primed(g, w', l) && w'.nodes[l] == CreateProposal(w.nodes[l], g.block).engine
  {
    hide Reaches, Voting, Undecided, CreateProposal, Fresh;
    var l := leader(g.round);
    if l in w.nodes {
      var ev := OwnTurn(l, g.block);
      w' := Next(w, ev);
      FreshRound(g, w, l);
      Moves(leader, g, w, ev);
      TurnVotes(g, l, w.nodes[l]);
      UndecidedStep(g, w'.nodes[l]);
    } else {
      GoesNowhere(leader, w);
      w' := w;
    }
  }

  lemma FreshRound(g: Plan, w: World, p: Validator)
    requires AllFresh(g, w, {p})
    ensures p in w.nodes && w.nodes[p].round == g.round
  {
    hide Counted;
  }

  lemma UndecidedStep(g: Plan, e: Engine)
    ensures Undecided(g, e) ==> e.step != Commit
  {}

  lemma PrimeOne(leader: Leader, g: Plan, w: World, p: Validator) returns (w': World)
    requires AllFresh(g, w, {p}) && Deliverable(leader, g, w)
    ensures Goes(leader, w, w', {p}) && Primed(g, w', p)
  {
    hide Reaches, Voting, Undecided, OnProposal, Fresh;
    var ev := ProposalArrives(p, ProposalOf(g), true);
    w' := Next(w, ev);
    Moves(leader, g, w, ev);
    ProposalVotes(g, p, w.nodes[p]);
    UndecidedStep(g, w'.nodes[p]);
  }

  lemma StillDeliverable(leader: Leader, g: Plan, w: World, w': World, moved: set<Validator>)
    requires Deliverable(leader, g, w) && Only(w, w', moved)
    ensures Deliverable(leader, g, w')
  {}

  lemma {:induction false} PrimeAll(leader: Leader, g: Plan, w: World, s: set<Validator>) returns (w': World)
    requires AllFresh(g, w, s) && Deliverable(leader, g, w)
    ensures Goes(leader, w, w', s) && AllPrimed(g, w', s)
    decreases s
  {
    hide Reaches, Primed, Fresh, Only, Deliverable;
    if s == {} {
      GoesNowhere(leader, w);
      w' := w;
    } else {
      var p :| p in s;
      var w1 := PrimeOne(leader, g, w, p);
      FreshStays(g, w, w1, {p}, s - {p});
      StillDeliverable(leader, g, w, w1, {p});
      w' := PrimeAll(leader, g, w1, s - {p});
      GoesOn(leader, w, w1, w', {p}, s - {p});
      PrimedStays(g, w1, w', s - {p}, {p});
      assert {p} + (s - {p}) == s;
      forall q | q in s ensures Primed(g, w', q) {
        assert q in {p} || q in s - {p};
      }
    }
  }

  // ---------------------------------------------------------------------
  // A quorum precommits
  // ---------------------------------------------------------------------

  /** Whoever is honest in `s` has prevoted the block. */
  predicate Prevoted(g: Plan, w: World, s: set<Validator>) {
    forall v :: v in s && v in w.nodes ==> SignedFor(g, w.nodes[v].signedPrevotes)
  }

  predicate Precommitting(g: Plan, w: World, s: set<Validator>) {
    forall v :: v in s && v in w.nodes ==> SignedFor(g, w.nodes[v].signedPrecommits)
  }

  lemma PrevoteTo(leader: Leader, g: Plan, w: World, p: Validator, v: Validator) returns (w': World)
    requires Primed(g, w, p) && Prevoted(g, w, {v})
    ensures Goes(leader, w, w', {p}) && Primed(g, w', p)
    ensures v in g.power ==> (g.round, v) in w'.nodes[p].prevotes.seen
    ensures forall k :: k in w.nodes[p].prevotes.seen ==> k in w'.nodes[p].prevotes.seen
  {
    hide Reaches, Voting, Undecided, OnPrevote;
    var ev := PrevoteArrives(p, g.round, Some(g.block), v);
    w' := Next(w, ev);
    assert Genuine(w.nodes, true, g.round, Some(g.block), v);
    Moves(leader, g, w, ev);
    PrevoteVotes(g, p, w.nodes[p], v);
    UndecidedStep(g, w'.nodes[p]);
  }

  lemma PrevotedStays(g: Plan, w: World, w': World, p: Validator, s: set<Validator>)
    requires Prevoted(g, w, s) && Only(w, w', {p}) && Primed(g, w', p)
    ensures Prevoted(g, w', s)
  {
    hide Stage;
  }

  lemma {:induction false} PrevotesTo(leader: Leader, g: Plan, w: World, p: Validator, s: set<Validator>)
    returns (w': World)
    requires Primed(g, w, p) && Prevoted(g, w, s)
    ensures Goes(leader, w, w', {p}) && Primed(g, w', p)
    ensures forall v :: v in s && v in g.power ==> (g.round, v) in w'.nodes[p].prevotes.seen
    ensures forall k :: k in w.nodes[p].prevotes.seen ==> k in w'.nodes[p].prevotes.seen
    decreases s
  {
    hide Reaches, Voting, Settled, Only;
    if s == {} {
      GoesNowhere(leader, w);
      OnlyMore(w, w, {}, {p});
      w' := w;
    } else {
      var v :| v in s;
      assert Prevoted(g, w, {v});
      var w1 := PrevoteTo(leader, g, w, p, v);
      PrevotedStays(g, w, w1, p, s);
      w' := PrevotesTo(leader, g, w1, p, s - {v});
      GoesOn(leader, w, w1, w', {p}, {p});
      assert {p} + {p} == {p};
    }
  }

  lemma OnlyMore(w: World, w': World, s: set<Validator>, t: set<Validator>)
    requires Only(w, w', s) && s <= t
    ensures Only(w, w', t)
  {}

  /** Shown a quorum of prevotes, a primed validator precommits. */
  lemma LockOne(leader: Leader, g: Plan, w: World, p: Validator, quorum: set<Validator>) returns (w': World)
    requires Primed(g, w, p) && Prevoted(g, w, quorum) && quorum <= g.power.Keys && Quorum(g.power, quorum)
    ensures Goes(leader, w, w', {p}) && Primed(g, w', p) && Precommitting(g, w', {p})
  {
    hide Goes, Quorum, Counted, PowerOf, Supermajority, Settled;
    w' := PrevotesTo(leader, g, w, p, quorum);
    QuorumSeen(g, w'.nodes[p].prevotes, quorum);
  }

  lemma AllPrevoted(g: Plan, w: World, all: set<Validator>, quorum: set<Validator>)
    requires AllPrimed(g, w, all) && forall v :: v in quorum && v in w.nodes ==> v in all
    ensures Prevoted(g, w, quorum)
  {
    hide Stage, Settled;
    forall v | v in quorum && v in w.nodes ensures SignedFor(g, w.nodes[v].signedPrevotes) {
      assert Primed(g, w, v);
    }
  }

  lemma PrecommittingStays(g: Plan, w: World, w': World, moved: set<Validator>, s: set<Validator>)
    requires Precommitting(g, w, s) && Only(w, w', moved) && moved !! s
    ensures Precommitting(g, w', s)
  {}

  lemma SameNodes(w: World, w': World, moved: set<Validator>)
    requires Only(w, w', moved)
    ensures w'.nodes.Keys == w.nodes.Keys && w.decided <= w'.decided
  {}

  lemma {:induction false} LockAll(leader: Leader, g: Plan, w: World, s: set<Validator>, all: set<Validator>,
                                   quorum: set<Validator>)
    returns (w': World)
    requires s <= all && AllPrimed(g, w, all) && quorum <= g.power.Keys && Quorum(g.power, quorum)
    requires forall v :: v in quorum && v in w.nodes ==> v in all
    ensures Goes(leader, w, w', s) && AllPrimed(g, w', all) && Precommitting(g, w', s)
    decreases s
  {
    hide Reaches, Quorum, Primed, Only, SignedFor;
    if s == {} {
      GoesNowhere(leader, w);
      w' := w;
    } else {
      var p :| p in s;
      AllPrevoted(g, w, all, quorum);
      var w1 := LockOne(leader, g, w, p, quorum);
      PrimedStays(g, w, w1, {p}, all - {p});
      assert AllPrimed(g, w1, all) by {
        assert forall q :: q in all ==> q == p || q in all - {p};
      }
      SameNodes(w, w1, {p});
      w' := LockAll(leader, g, w1, s - {p}, all, quorum);
      GoesOn(leader, w, w1, w', {p}, s - {p});
      PrecommittingStays(g, w1, w', s - {p}, {p});
      assert {p} + (s - {p}) == s;
    }
  }

  // ---------------------------------------------------------------------
  // One validator decides
  // ---------------------------------------------------------------------

  /** `c` has decided, or is ready to on enough precommits. */
  ghost predicate Deciding(g: Plan, w: World, c: Validator) {
    c in w.nodes && (Decides(g, w, c) || (Stage(g, c, w.nodes[c]) && Undecided(g, w.nodes[c])))
  }

  lemma PrecommitTo(leader: Leader, g: Plan, w: World, c: Validator, v: Validator) returns (w': World)
    requires Deciding(g, w, c) && !Decides(g, w, c) && Precommitting(g, w, {v})
    ensures Goes(leader, w, w', {c}) && Deciding(g, w', c)
    ensures w'.nodes[c].signedPrecommits == w.nodes[c].signedPrecommits
    ensures Decides(g, w', c) ||
            ((v in g.power ==> (g.round, v) in w'.nodes[c].precommits.seen) &&
             forall k :: k in w.nodes[c].precommits.seen ==> k in w'.nodes[c].precommits.seen)
  {
    hide Reaches, Stage, Undecided, OnPrecommit;
    var ev := PrecommitArrives(c, g.round, Some(g.block), v);
    w' := Next(w, ev);
    assert Genuine(w.nodes, false, g.round, Some(g.block), v);
    Moves(leader, g, w, ev);
    PrecommitArrivesFor(g, c, w.nodes[c], v);
  }

  lemma {:induction false} PrecommitsTo(leader: Leader, g: Plan, w: World, c: Validator, s: set<Validator>)
    returns (w': World)
    requires Deciding(g, w, c) && Precommitting(g, w, s)
    ensures Goes(leader, w, w', {c}) && Deciding(g, w', c)
    ensures Decides(g, w', c) ||
            ((forall v :: v in s && v in g.power ==> (g.round, v) in w'.nodes[c].precommits.seen) &&
             forall k :: k in w.nodes[c].precommits.seen ==> k in w'.nodes[c].precommits.seen)
    decreases s
  {
    hide Reaches, Stage, Undecided;
    if s == {} || Decides(g, w, c) {
      GoesNowhere(leader, w);
      w' := w;
    } else {
      var v :| v in s;
      var w1 := PrecommitTo(leader, g, w, c, v);
      w' := PrecommitsTo(leader, g, w1, c, s - {v});
      GoesOn(leader, w, w1, w', {c}, {c});
      assert {c} + {c} == {c};
    }
  }

  /** Shown a quorum of precommits, `c` decides. */
  lemma DecideOne(leader: Leader, g: Plan, w: World, c: Validator, quorum: set<Validator>) returns (w': World)
    requires Deciding(g, w, c) && Precommitting(g, w, quorum) && quorum <= g.power.Keys && Quorum(g.power, quorum)
    ensures Goes(leader, w, w', {c}) && Decides(g, w', c)
  {
    hide Goes, Quorum, Counted, PowerOf, Supermajority;
    w' := PrecommitsTo(leader, g, w, c, quorum);
    if !Decides(g, w', c) {
      QuorumSeen(g, w'.nodes[c].precommits, quorum);
    }
  }

  lemma PrimedDecides(g: Plan, w: World, c: Validator)
    requires Primed(g, w, c)
    ensures Deciding(g, w, c)
  {
    hide Stage, Undecided;
  }

  /** The round's leader proposes, the honest members of a quorum and `c` prevote, those members
      precommit, and `c` decides. The leader, if honest and none of them, has only prevoted. */
  lemma Lead(leader: Leader, g: Plan, w: World, honest: set<Validator>, quorum: set<Validator>, c: Validator)
    returns (w': World)
    requires quorum <= g.power.Keys && Quorum(g.power, quorum) && honest == quorum * w.nodes.Keys && c in w.nodes
    requires AllFresh(g, w, honest + {c} + {leader(g.round)} * w.nodes.Keys)
    ensures Goes(leader, w, w', honest + {c} + {leader(g.round)}) && Decides(g, w', c)
    ensures var l := leader(g.round);
            l in w.nodes && l !in honest + {c} ==> w'.nodes[l] == CreateProposal(w.nodes[l], g.block).engine
  {
    hide Reaches, Quorum, Fresh, Primed, Only, CreateProposal, Deliverable, SignedFor;
    var l, voters := leader(g.round), honest + {c};
    if l in w.nodes {
      assert l in {leader(g.round)} * w.nodes.Keys;
    }
    var w1 := TakeTurn(leader, g, w);
    FreshStays(g, w, w1, {l}, voters - {l});
    var w2 := PrimeAll(leader, g, w1, voters - {l});
    if l in voters {
      PrimedStays(g, w1, w2, voters - {l}, {l});
    }
    assert AllPrimed(g, w2, voters) by {
      assert forall q :: q in voters ==> q == l || q in voters - {l};
    }
    SameNodes(w, w1, {l});
    SameNodes(w1, w2, voters - {l});
    var w3 := LockAll(leader, g, w2, honest, voters, quorum);
    SameNodes(w2, w3, honest);
    assert Primed(g, w3, c);
    PrimedDecides(g, w3, c);
    assert Precommitting(g, w3, quorum);
    w' := DecideOne(leader, g, w3, c, quorum);
    GoesOn(leader, w, w1, w2, {l}, voters - {l});
    GoesOn(leader, w, w2, w3, {l} + (voters - {l}), honest);
    GoesOn(leader, w, w3, w', {l} + (voters - {l}) + honest, {c});
    assert {l} + (voters - {l}) + honest + {c} == honest + {c} + {l};
    if l in w.nodes && l !in voters {
      GoesOn(leader, w1, w2, w3, voters - {l}, honest);
      GoesOn(leader, w1, w3, w', voters - {l} + honest, {c});
      NotMoved(w1, w', voters - {l} + honest + {c}, l);
    }
  }

  lemma NotMoved(w: World, w': World, moved: set<Validator>, p: Validator)
    requires Only(w, w', moved) && p in w.nodes && p !in moved
    ensures p in w'.nodes && w'.nodes[p] == w.nodes[p]
  {}

  // ---------------------------------------------------------------------
  // The others go on to round 1
  // ---------------------------------------------------------------------

  ghost predicate CanMoveOn(power: Power, w: World, p: Validator) {
    p in w.nodes && Idle(power, p, w.nodes[p]) && !Quorum(power, {p})
  }

  lemma TimeOut(leader: Leader, g: Plan, w: World, p: Validator, s: Step) returns (w': World)
    requires p in w.nodes
    ensures Goes(leader, w, w', {p}) && w'.nodes[p] == OnTimeout(w.nodes[p], s, 0).engine
  {
    hide Reaches, OnTimeout;
    var ev := TimeoutFires(p, s, 0);
    w' := Next(w, ev);
    Moves(leader, g, w, ev);
  }

  lemma MoveOn(leader: Leader, g: Plan, w: World, p: Validator) returns (w': World)
    requires CanMoveOn(g.power, w, p) && g.round == 1
    ensures Goes(leader, w, w', {p}) && AllFresh(g, w', {p})
  {
    hide Reaches, Quorum, DoPrevote, DoPrecommit, Only, Counted;
    var w0 := w;
    GoesNowhere(leader, w);
    OnlyMore(w, w, {}, {p});
    if w.nodes[p].step == Propose {
      w0 := TimeOut(leader, g, w, p, Propose);
      PrevoteIdle(g.power, p, w.nodes[p], None);
    }
    SameNodes(w, w0, {p});
    var w1 := TimeOut(leader, g, w0, p, Prevote);
    SameNodes(w0, w1, {p});
    w' := TimeOut(leader, g, w1, p, Precommit);
    SameNodes(w1, w', {p});
    TimesOut(g.power, p, w0.nodes[p]);
    GoesOn(leader, w, w0, w1, {p}, {p});
    assert {p} + {p} == {p};
    GoesOn(leader, w, w1, w', {p}, {p});
  }

  lemma {:induction false} MoveAllOn(leader: Leader, g: Plan, w: World, s: set<Validator>) returns (w': World)
    requires (forall p :: p in s ==> CanMoveOn(g.power, w, p)) && g.round == 1
    ensures Goes(leader, w, w', s) && AllFresh(g, w', s)
    decreases s
  {
    hide Reaches, Fresh, Idle, Quorum;
    if s == {} {
      GoesNowhere(leader, w);
      w' := w;
    } else {
      var p :| p in s;
      var w1 := MoveOn(leader, g, w, p);
      w' := MoveAllOn(leader, g, w1, s - {p});
      FreshStays(g, w1, w', s - {p}, {p});
      GoesOn(leader, w, w1, w', {p}, s - {p});
      assert {p} + (s - {p}) == s;
    }
  }

  lemma NotAlone(power: Power, quorum: set<Validator>, p: Validator)
    requires Quorum(power, quorum) && p !in quorum
    ensures !Quorum(power, {p})
  {
    StakeUnion(power, quorum, {p});
    StakeMonotone(power, quorum + {p}, power.Keys);
    assert quorum * {p} == {};
    StakeOutside(power, {});
  }

  // ---------------------------------------------------------------------
  // The theorem
  // ---------------------------------------------------------------------

  /** In every run with these leaders all blocks committed by honest validators are the same. */
  ghost predicate AlwaysAgrees(power: Power, honest: set<Validator>, leader: Leader) {
    forall events: seq<Event>, w: World :: ArrivesAt(leader, Start(power, honest), events, w) ==> Agree(w.decided)
  }

  /** In no such run do two different honest validators commit different blocks. */
  ghost predicate NeverSplits(power: Power, honest: set<Validator>, leader: Leader) {
    forall events: seq<Event>, w: World :: ArrivesAt(leader, Start(power, honest), events, w) ==> !Split(w.decided)
  }

  predicate Agree(decided: set<Decision>) {
    forall d1, d2 :: d1 in decided && d2 in decided ==> d1.block == d2.block
  }

  predicate Split(decided: set<Decision>) {
    exists d1, d2 :: d1 in decided && d2 in decided && d1.validator != d2.validator && d1.block != d2.block
  }

  /** Two quorums without a common honest validator, of which the first holds neither the leader of
      round 1 nor a member that the second needs: `c` commits block 10 and `d` block 20. */
  lemma Disagreement(power: Power, honest: set<Validator>, leader: Leader, a: set<Validator>, b: set<Validator>,
                     c: Validator, d: Validator)
    returns (w: World)
    requires a <= power.Keys && b <= power.Keys && Quorum(power, a) && Quorum(power, b) && a * b * honest == {}
    requires c in honest && d in honest && c != d && leader(1) !in a * honest + {c}
    requires if a * honest == {} then b * honest == {} else c in a * honest && d in b * honest
    ensures Reaches(leader, Start(power, honest), w)
    ensures Decision(c, 0, 10) in w.decided && Decision(d, 1, 20) in w.decided
  {
    hide Quorum, StartHeight, IsRun, After, Reaches, Only, Fresh, Idle, CreateProposal;
    var w0 := Start(power, honest);
    assert w0.nodes.Keys == honest;
    var g0, g1 := Plan(power, 0, 10), Plan(power, 1, 20);
    forall p | p in honest ensures Fresh(power, p, w0.nodes[p], 0) && w0.nodes[p] == StartHeight(p, power) {
      StartFresh(power, p);
    }
    var first, second := a * honest + {c}, b * honest + {d} + {leader(1)} * honest;
    var w1 := Lead(leader, g0, w0, a * honest, a, c);
    SameNodes(w0, w1, first + {leader(0)});
    Apart(honest, a, b, c, d, leader(1));
    forall p | p in second ensures CanMoveOn(power, w1, p) {
      NotAlone(power, a, p);
      LeftIdle(leader, power, w0, w1, first, p);
    }
    var w2 := MoveAllOn(leader, g1, w1, second);
    SameNodes(w1, w2, second);
    assert AllFresh(g1, w2, b * honest + {d} + {leader(1)} * w2.nodes.Keys);
    w := Lead(leader, g1, w2, b * honest, b, d);
    SameNodes(w2, w, b * honest + {d} + {leader(1)});
    Onward(leader, w0, w1, w2);
    Onward(leader, w0, w2, w);
  }

  lemma Apart(honest: set<Validator>, a: set<Validator>, b: set<Validator>, c: Validator, d: Validator, l: Validator)
    requires a * b * honest == {} && c in honest && d in honest && c != d && l !in a * honest + {c}
    requires if a * honest == {} then b * honest == {} else c in a * honest && d in b * honest
    ensures (a * honest + {c}) !! (b * honest + {d} + {l} * honest)
    ensures forall p :: p in b * honest + {d} + {l} * honest ==> p in honest && p !in a
  {
    assert forall v :: v in a * honest && v in b * honest ==> v in a * b * honest;
    assert forall p :: p in a && p in honest ==> p in a * honest;
  }

  /** Whoever was not needed for round 0 is idle after it, the leader of round 0 included. */
  lemma LeftIdle(leader: Leader, power: Power, w: World, w': World, voters: set<Validator>, p: Validator)
    requires p in w.nodes && w.nodes[p] == StartHeight(p, power) && p !in voters && !Quorum(power, {p})
    requires Only(w, w', voters + {leader(0)})
    requires p == leader(0) ==> p in w'.nodes && w'.nodes[p] == CreateProposal(w.nodes[p], 10).engine
    ensures CanMoveOn(power, w', p)
  {
    hide Quorum, DoPrevote, Counted;
    StartIdle(power, p);
    if p == leader(0) {
      var g := Plan(power, 0, 10);
      StartFresh(power, p);
      TurnVotes(g, p, w.nodes[p]);
      PrevoteIdle(power, p, Stored(g, w.nodes[p]), Some(10));
    }
  }

  lemma Restrict(power: Power, a: set<Validator>)
    requires Quorum(power, a)
    ensures Quorum(power, a * power.Keys)
  {
    StakeMonotone(power, a, a * power.Keys);
  }

  /** Some choice of quorums and validators always meets the conditions. */
  lemma SomeDisagreement(power: Power, honest: set<Validator>, leader: Leader, c: Validator, d: Validator)
    returns (w: World, x: Validator, y: Validator)
    requires c in honest && d in honest && c != d && !Resilient(power, honest)
    ensures Reaches(leader, Start(power, honest), w) && x in honest && y in honest && x != y
    ensures Decision(x, 0, 10) in w.decided && Decision(y, 1, 20) in w.decided
  {
    hide Quorum, Reaches, Start;
    var a, b :| Quorum(power, a) && Quorum(power, b) && !ShareHonest(power, honest, a, b);
    Restrict(power, a);
    Restrict(power, b);
    var q, r := a * power.Keys, b * power.Keys;
    assert q * r * honest == {} by {
      assert forall v :: v in q * r * honest ==> v in a && v in b && v in honest && v in power;
    }
    if q * honest == {} || r * honest == {} {
      var s := if q * honest == {} then q else r;
      x, y := if leader(1) == c then d else c, if leader(1) == c then c else d;
      w := Disagreement(power, honest, leader, s, s, x, y);
    } else {
      var s, t := if leader(1) in q * honest then r else q, if leader(1) in q * honest then q else r;
      assert leader(1) !in s * honest by {
        assert forall v :: v in q * honest && v in r * honest ==> v in q * r * honest;
      }
      x :| x in s * honest;
      y :| y in t * honest;
      assert s * t * honest == {};
      assert x != y by {
        assert x == y ==> x in s * t * honest;
      }
      w := Disagreement(power, honest, leader, s, t, x, y);
    }
  }

  lemma ResilientAgrees(power: Power, honest: set<Validator>, leader: Leader, events: seq<Event>, w: World)
    requires Resilient(power, honest) && ArrivesAt(leader, Start(power, honest), events, w)
    ensures Agree(w.decided) && !Split(w.decided)
  {
    hide Resilient, IsRun, IsLedRun, After, Start;
    LedRunIsRun(leader, Start(power, honest), events);
    forall d1, d2 | d1 in w.decided && d2 in w.decided ensures d1.block == d2.block {
      Agreement(power, honest, events, d1, d2);
    }
  }

  /** Whoever leads the rounds: with two honest validators or more, the engine agrees in every run,
      and two different validators never commit different blocks, exactly when any two quorums
      share an honest validator. */
  lemma AgreementIff(power: Power, honest: set<Validator>, leader: Leader, c: Validator, d: Validator)
    requires c in honest && d in honest && c != d
    ensures AlwaysAgrees(power, honest, leader) <==> Resilient(power, honest)
    ensures NeverSplits(power, honest, leader) <==> Resilient(power, honest)
  {
    hide Resilient, IsLedRun, After, Start;
    if Resilient(power, honest) {
      forall events: seq<Event>, w: World | ArrivesAt(leader, Start(power, honest), events, w)
        ensures Agree(w.decided) && !Split(w.decided)
      {
        ResilientAgrees(power, honest, leader, events, w);
      }
    } else {
      var w, x, y := SomeDisagreement(power, honest, leader, c, d);
      hide ArrivesAt;
      var events :| ArrivesAt(leader, Start(power, honest), events, w);
      assert Decision(x, 0, 10) in w.decided && Decision(y, 1, 20) in w.decided;
    }
  }

  // ---------------------------------------------------------------------
  // A third of the stake
  // ---------------------------------------------------------------------

  function ThreeEqual(): Power { map[0 := 1, 1 := 1, 2 := 1] }

  lemma PairStake(v: Validator, w: Validator)
    requires v in ThreeEqual() && w in ThreeEqual() && v != w
    ensures Stake(ThreeEqual(), {v}) == 1 && Stake(ThreeEqual(), {v, w}) == 2
  {
    hide Stake;
    StakeSingle(ThreeEqual(), v);
    StakeAdd(ThreeEqual(), {v}, w);
    assert {v} + {w} == {v, w};
  }

  lemma AllStake()
    ensures Total(ThreeEqual()) == 3
  {
    hide Stake;
    PairStake(0, 1);
    StakeAdd(ThreeEqual(), {0, 1}, 2);
    assert {0, 1} + {2} == ThreeEqual().Keys;
  }

  /** Three equal validators, one of them Byzantine: exactly a third is already too much for a
      threshold that two thirds meet, whoever leads the rounds. */
  lemma OneThirdIsTooMuch(leader: Leader)
    ensures 3 * Stake(ThreeEqual(), ThreeEqual().Keys - {0, 1}) == Total(ThreeEqual())
    ensures !NeverSplits(ThreeEqual(), {0, 1}, leader)
  {
    hide Stake, AlwaysAgrees, NeverSplits;
    var power := ThreeEqual();
    AllStake();
    PairStake(2, 0);
    PairStake(2, 1);
    assert power.Keys - {0, 1} == {2};
    var a, b: set<Validator> := {2, 0}, {2, 1};
    assert Quorum(power, a) && Quorum(power, b) && !ShareHonest(power, {0, 1}, a, b);
    AgreementIff(power, {0, 1}, leader, 0, 1);
  }
}
