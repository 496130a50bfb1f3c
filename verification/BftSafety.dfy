/**
  The invariant behind agreement, and that every step of every engine keeps it. Only what it
  says of possible commits depends on any two quorums sharing an honest validator.
*/
module BftSafety {
  import opened Bytes
  import opened BftVotes
  import opened BftEngine

  /** The honest validators and their engines. Every other validator is Byzantine. */
  type Nodes = map<Validator, Engine>

  // ---------------------------------------------------------------------
  // The invariant
  // ---------------------------------------------------------------------

  ghost predicate Sane(power: Power, id: Validator, e: Engine) {
    && e.me == id && e.power == power && e.total == Total(power)
    && Counted(power, e.prevotes) && Counted(power, e.precommits)
    && (forall r :: r in e.signedPrevotes ==> r <= e.round)
    && (forall r :: r in e.signedPrecommits ==> r <= e.round)
    && (e.step == Propose || e.step == Prevote ==> e.round !in e.signedPrecommits)
    && (e.lockedRound.Some? <==> e.lockedValue.Some?)
  }

  /** Every vote seen from an honest validator is one it signed. */
  ghost predicate SeenSound(nodes: Nodes, e: Engine) {
    && (forall k :: k in e.prevotes.seen && k.1 in nodes ==>
          k.0 in nodes[k.1].signedPrevotes && nodes[k.1].signedPrevotes[k.0] == e.prevotes.seen[k])
    && (forall k :: k in e.precommits.seen && k.1 in nodes ==>
          k.0 in nodes[k.1].signedPrecommits && nodes[k.1].signedPrecommits[k.0] == e.precommits.seen[k])
  }

  predicate Precommitted(e: Engine, r: Round, h: Hash) {
    r in e.signedPrecommits && e.signedPrecommits[r] == Some(h)
  }

  ghost predicate Polka(power: Power, e: Engine, r: Round, h: Hash) {
    Quorum(power, VotersFor(e.prevotes, r, Some(h)))
  }

  /** A precommit for a block was signed in sight of a polka for it. */
  ghost predicate Justified(power: Power, e: Engine) {
    forall r: Round, h: Hash :: Precommitted(e, r, h) ==> Polka(power, e, r, h)
  }

  /** `e` has precommitted `h` at `r`, or may still do so. */
  predicate MayPrecommit(e: Engine, r: Round, h: Hash) {
    if r in e.signedPrecommits then e.signedPrecommits[r] == Some(h) else e.round <= r
  }

  /** Everyone who could still be part of a commit of `h` at `r`. */
  ghost function Supporters(power: Power, nodes: Nodes, r: Round, h: Hash): set<Validator> {
    set v | v in power && (v in nodes ==> MayPrecommit(nodes[v], r, h))
  }

  /** While `h` could still be committed at `r`, a validator that precommitted it there stays
      locked on it and prevotes nothing else later. */
  predicate HoldsTo(e: Engine, r: Round, h: Hash) {
    && e.lockedRound.Some? && e.lockedRound.value >= r && e.lockedValue == Some(h)
    && forall r' :: r' in e.signedPrevotes && r' > r ==> e.signedPrevotes[r'] in {None, Some(h)}
  }

  ghost predicate Committed(power: Power, nodes: Nodes, e: Engine) {
    Resilient(power, nodes.Keys) ==>
      forall r: Round, h: Hash :: Precommitted(e, r, h) && Quorum(power, Supporters(power, nodes, r, h)) ==>
          HoldsTo(e, r, h)
  }

  /** A lock stands on a polka, and no precommit is newer than it. */
  ghost predicate LockBacked(power: Power, e: Engine) {
    && (e.lockedRound.Some? && e.lockedValue.Some? ==> Polka(power, e, e.lockedRound.value, e.lockedValue.value))
    && forall r: Round, h: Hash :: Precommitted(e, r, h) ==>
         e.lockedRound.Some? && e.lockedRound.value >= r && (e.lockedRound.value == r ==> e.lockedValue == Some(h))
  }

  /** After a precommit for `h` at `r`, a later prevote is for `h`, for nil, or for a block
      whose polka at a round after `r` this validator has seen. */
  ghost predicate PrevoteExcused(power: Power, e: Engine, r: Round, h: Hash, r': Round)
    requires r' in e.signedPrevotes
  {
    var b := e.signedPrevotes[r'];
    b == None || b == Some(h) || exists r'': Round :: r'' > r && Polka(power, e, r'', b.value)
  }

  ghost predicate LockRule(power: Power, e: Engine) {
    forall r: Round, h: Hash, r': Round :: Precommitted(e, r, h) && r' in e.signedPrevotes && r' > r ==>
      PrevoteExcused(power, e, r, h, r')
  }

  ghost predicate Locking(power: Power, e: Engine) {
    LockBacked(power, e) && LockRule(power, e)
  }

  ghost predicate NodeOk(power: Power, nodes: Nodes, p: Validator)
    requires p in nodes
  {
    && Sane(power, p, nodes[p])
    && SeenSound(nodes, nodes[p])
    && Justified(power, nodes[p])
    && Locking(power, nodes[p])
    && Committed(power, nodes, nodes[p])
  }

  ghost predicate Invariant(power: Power, nodes: Nodes) {
    forall p :: p in nodes ==> NodeOk(power, nodes, p)
  }

  // ---------------------------------------------------------------------
  // The key step: a later polka agrees with a possible commit
  // ---------------------------------------------------------------------

  lemma PolkaAgrees(power: Power, nodes: Nodes, p: Validator, r: Round, w: Hash, r0: Round, h: Hash)
    requires Resilient(power, nodes.Keys) && Invariant(power, nodes) && p in nodes
    requires Polka(power, nodes[p], r, w) && r > r0
    requires Quorum(power, Supporters(power, nodes, r0, h))
    ensures w == h
  {
    hide Resilient, Quorum, Counted;
    var q := QuorumsMeet(power, nodes.Keys, VotersFor(nodes[p].prevotes, r, Some(w)), Supporters(power, nodes, r0, h));
    assert NodeOk(power, nodes, p) && NodeOk(power, nodes, q);
    assert (r, q) in nodes[p].prevotes.seen && nodes[p].prevotes.seen[(r, q)] == Some(w);
    assert Precommitted(nodes[q], r0, h);
    assert HoldsTo(nodes[q], r0, h);
  }

  // ---------------------------------------------------------------------
  // What one engine may do to the invariant
  // ---------------------------------------------------------------------

  /** Rounds go up, signatures are never withdrawn or changed, precommits are for the present. */
  ghost predicate Evolves(e: Engine, e': Engine) {
    && e'.round >= e.round
    && (forall r :: r in e.signedPrevotes ==> r in e'.signedPrevotes && e'.signedPrevotes[r] == e.signedPrevotes[r])
    && (forall r :: r in e.signedPrecommits ==>
         r in e'.signedPrecommits && e'.signedPrecommits[r] == e.signedPrecommits[r])
    && (forall r :: r in e'.signedPrecommits ==> r in e.signedPrecommits || r >= e.round)
  }

  lemma SupportersShrink(power: Power, nodes: Nodes, p: Validator, e': Engine, r: Round, h: Hash)
    requires p in nodes && Evolves(nodes[p], e')
    requires Quorum(power, Supporters(power, nodes[p := e'], r, h))
    ensures Quorum(power, Supporters(power, nodes, r, h))
  {
    QuorumMonotone(power, Supporters(power, nodes[p := e'], r, h), Supporters(power, nodes, r, h));
  }

  lemma SoundForOthers(nodes: Nodes, p: Validator, e': Engine, e: Engine)
    requires p in nodes && Evolves(nodes[p], e') && SeenSound(nodes, e)
    ensures SeenSound(nodes[p := e'], e)
  {}

  lemma CommittedForOthers(power: Power, nodes: Nodes, p: Validator, e': Engine, e: Engine)
    requires p in nodes && Evolves(nodes[p], e') && Committed(power, nodes, e)
    ensures Committed(power, nodes[p := e'], e)
  {
    hide Resilient, Quorum, HoldsTo, Evolves, Supporters;
    assert nodes[p := e'].Keys == nodes.Keys;
    forall r: Round, h: Hash | Resilient(power, nodes.Keys) && Precommitted(e, r, h)
                               && Quorum(power, Supporters(power, nodes[p := e'], r, h))
      ensures HoldsTo(e, r, h)
    {
      SupportersShrink(power, nodes, p, e', r, h);
    }
  }

  /** `p` may move to `e'`. */
  ghost predicate Keeps(power: Power, nodes: Nodes, p: Validator, e': Engine) {
    p in nodes && Evolves(nodes[p], e') && Invariant(power, nodes[p := e'])
  }

  /** Enough to show of an engine's new state for the invariant to survive. */
  lemma Preserved(power: Power, nodes: Nodes, p: Validator, e': Engine)
    requires Invariant(power, nodes) && p in nodes
    requires Evolves(nodes[p], e') && Sane(power, p, e') && SeenSound(nodes[p := e'], e') && Justified(power, e')
        && Locking(power, e')
    requires Resilient(power, nodes.Keys) ==>
               forall r: Round, h: Hash :: Precommitted(e', r, h) && Quorum(power, Supporters(power, nodes, r, h)) ==>
                   HoldsTo(e', r, h)
    ensures Keeps(power, nodes, p, e')
  {
    hide Sane, SeenSound, Justified, Locking, Evolves, HoldsTo, Resilient, Quorum, Supporters;
    var nodes' := nodes[p := e'];
    assert nodes'.Keys == nodes.Keys;
    forall q | q in nodes' ensures NodeOk(power, nodes', q) {
      if q == p {
        forall r: Round, h: Hash | Resilient(power, nodes.Keys) && Precommitted(e', r, h)
                                   && Quorum(power, Supporters(power, nodes', r, h))
          ensures HoldsTo(e', r, h)
        {
          SupportersShrink(power, nodes, p, e', r, h);
        }
      } else {
        assert NodeOk(power, nodes, q);
        SoundForOthers(nodes, p, e', nodes[q]);
        CommittedForOthers(power, nodes, p, e', nodes[q]);
      }
    }
  }

  // ---------------------------------------------------------------------
  // Each small step keeps the invariant
  // ---------------------------------------------------------------------

  /** A step that signs nothing and keeps the lock: only round, step, proposals and votes move. */
  ghost predicate SignsNothing(e: Engine, e': Engine) {
    && e'.me == e.me && e'.power == e.power && e'.total == e.total && e'.round >= e.round
    && e'.signedPrevotes == e.signedPrevotes && e'.signedPrecommits == e.signedPrecommits
    && e'.lockedRound == e.lockedRound && e'.lockedValue == e.lockedValue
  }

  lemma Unsigned(power: Power, nodes: Nodes, p: Validator, e': Engine)
    requires Invariant(power, nodes) && p in nodes && SignsNothing(nodes[p], e')
    requires Sane(power, p, e') && SeenSound(nodes, e') && Justified(power, e') && Locking(power, e')
    ensures Keeps(power, nodes, p, e')
  {
    hide Counted, Resilient, Quorum, Supporters, Polka, Locking, Justified;
    assert NodeOk(power, nodes, p);
    SoundForOthers(nodes, p, e', e');
    Preserved(power, nodes, p, e');
  }

  lemma JustifiedSame(power: Power, e: Engine, e': Engine)
    requires Justified(power, e) && e'.prevotes == e.prevotes && e'.signedPrecommits == e.signedPrecommits
    ensures Justified(power, e')
  {
    hide Resilient, Quorum, VotersFor;
    forall r: Round, h: Hash | Precommitted(e', r, h) ensures Polka(power, e', r, h) {
      assert Precommitted(e, r, h);
      assert Polka(power, e, r, h);
    }
  }

  /** Locking survives more prevotes being seen. */
  lemma LockingGrows(power: Power, e: Engine, e': Engine)
    requires Locking(power, e)
    requires forall r: Round, h: Hash :: Polka(power, e, r, h) ==> Polka(power, e', r, h)
    requires e'.signedPrecommits == e.signedPrecommits && e'.signedPrevotes == e.signedPrevotes
    requires e'.lockedRound == e.lockedRound && e'.lockedValue == e.lockedValue
    ensures Locking(power, e')
  {
    hide Polka;
    forall r: Round, h: Hash | Precommitted(e', r, h)
      ensures e.lockedRound.Some? && e.lockedRound.value >= r && (e.lockedRound.value == r ==> e.lockedValue == Some(h))
    {
      assert Precommitted(e, r, h);
    }
    forall r: Round, h: Hash, r': Round | Precommitted(e', r, h) && r' in e'.signedPrevotes && r' > r
      ensures PrevoteExcused(power, e', r, h, r')
    {
      assert Precommitted(e, r, h);
      assert PrevoteExcused(power, e, r, h, r');
    }
  }

  lemma SamePolka(power: Power, e: Engine, e': Engine)
    requires e.prevotes == e'.prevotes
    ensures forall r: Round, h: Hash :: Polka(power, e, r, h) <==> Polka(power, e', r, h)
  {}

  lemma MorePolkas(power: Power, e: Engine, e': Engine, r: Round, b: Ballot, v: Validator)
    requires (r, v) !in e.prevotes.seen && e'.prevotes == AddVote(power, e.prevotes, r, b, v)
    ensures forall r': Round, h: Hash :: Polka(power, e, r', h) ==> Polka(power, e', r', h)
  {
    hide Resilient, Quorum, VotersFor, AddVote;
    forall r': Round, h: Hash | Polka(power, e, r', h) ensures Polka(power, e', r', h) {
      VotersGrow(power, e.prevotes, r, b, v, r', Some(h));
    }
  }

  /** A step that touches no vote at all. */
  lemma Bookkeeping(power: Power, nodes: Nodes, p: Validator, e': Engine)
    requires Invariant(power, nodes) && p in nodes && SignsNothing(nodes[p], e')
    requires e'.prevotes == nodes[p].prevotes && e'.precommits == nodes[p].precommits
    requires e'.step == Propose || e'.step == Prevote ==> e'.round !in e'.signedPrecommits
    ensures Keeps(power, nodes, p, e')
  {
    hide Counted, Resilient, Quorum, Committed, Justified, Locking, Polka;
    assert NodeOk(power, nodes, p);
    JustifiedSame(power, nodes[p], e');
    SamePolka(power, nodes[p], e');
    LockingGrows(power, nodes[p], e');
    Unsigned(power, nodes, p, e');
  }

  lemma SaneOf(power: Power, nodes: Nodes, p: Validator)
    requires Invariant(power, nodes) && p in nodes
    ensures Sane(power, p, nodes[p])
  {
    assert NodeOk(power, nodes, p);
  }

  lemma StartRoundKeeps(power: Power, nodes: Nodes, p: Validator, r: Round)
    requires Invariant(power, nodes) && p in nodes && r > nodes[p].round
    ensures Keeps(power, nodes, p, StartRound(nodes[p], r))
  {
    hide Invariant, Counted;
    SaneOf(power, nodes, p);
    Bookkeeping(power, nodes, p, StartRound(nodes[p], r));
  }

  lemma TransitionKeeps(power: Power, nodes: Nodes, p: Validator, s: Step)
    requires Invariant(power, nodes) && p in nodes
    ensures Keeps(power, nodes, p, TransitionTo(nodes[p], s))
  {
    hide Invariant, Counted;
    SaneOf(power, nodes, p);
    Bookkeeping(power, nodes, p, TransitionTo(nodes[p], s));
  }

  /** Storing a proposal. */
  lemma StoreKeeps(power: Power, nodes: Nodes, p: Validator, blocks: set<Hash>, proposals: map<Round, Proposal>)
    requires Invariant(power, nodes) && p in nodes
    ensures Keeps(power, nodes, p, nodes[p].(blocks := blocks, proposals := proposals))
  {
    hide Invariant, Counted;
    SaneOf(power, nodes, p);
    Bookkeeping(power, nodes, p, nodes[p].(blocks := blocks, proposals := proposals));
  }

  /** A vote is deliverable if its sender is Byzantine or really signed it. */
  predicate Genuine(nodes: Nodes, prevote: bool, r: Round, b: Ballot, v: Validator) {
    v in nodes ==>
      var signed := if prevote then nodes[v].signedPrevotes else nodes[v].signedPrecommits;
      r in signed && signed[r] == b
  }

  /** One more vote only adds voters. */
  lemma VotersGrow(power: Power, votes: Votes, r: Round, b: Ballot, v: Validator, r': Round, b': Ballot)
    requires (r, v) !in votes.seen && Quorum(power, VotersFor(votes, r', b'))
    ensures Quorum(power, VotersFor(AddVote(power, votes, r, b, v), r', b'))
  {
    VotersAfter(power, votes, r, b, v, r', b');
    QuorumMonotone(power, VotersFor(votes, r', b'), VotersFor(AddVote(power, votes, r, b, v), r', b'));
  }

  lemma JustifiedGrows(power: Power, e: Engine, e': Engine, r: Round, b: Ballot, v: Validator)
    requires Justified(power, e) && (r, v) !in e.prevotes.seen
    requires e'.prevotes == AddVote(power, e.prevotes, r, b, v) && e'.signedPrecommits == e.signedPrecommits
    ensures Justified(power, e')
  {
    hide Resilient, Quorum, VotersFor, AddVote;
    forall r': Round, h: Hash | Precommitted(e', r', h) ensures Polka(power, e', r', h) {
      assert Precommitted(e, r', h);
      assert Polka(power, e, r', h);
      VotersGrow(power, e.prevotes, r, b, v, r', Some(h));
    }
  }

  lemma AddVoteSeen(power: Power, votes: Votes, r: Round, b: Ballot, v: Validator)
    ensures AddVote(power, votes, r, b, v).seen == votes.seen[(r, v) := b]
  {}

  lemma SoundAfterPrevote(nodes: Nodes, e: Engine, e': Engine, r: Round, b: Ballot, v: Validator)
    requires SeenSound(nodes, e) && Genuine(nodes, true, r, b, v)
    requires e'.prevotes.seen == e.prevotes.seen[(r, v) := b] && e'.precommits == e.precommits
    ensures SeenSound(nodes, e')
  {}

  lemma SoundAfterPrecommit(nodes: Nodes, e: Engine, e': Engine, r: Round, b: Ballot, v: Validator)
    requires SeenSound(nodes, e) && Genuine(nodes, false, r, b, v)
    requires e'.precommits.seen == e.precommits.seen[(r, v) := b] && e'.prevotes == e.prevotes
    ensures SeenSound(nodes, e')
  {}

  lemma SeePrevoteKeeps(power: Power, nodes: Nodes, p: Validator, r: Round, b: Ballot, v: Validator)
    requires Invariant(power, nodes) && p in nodes && (r, v) !in nodes[p].prevotes.seen
    requires Genuine(nodes, true, r, b, v)
    ensures Keeps(power, nodes, p, nodes[p].(prevotes := AddVote(power, nodes[p].prevotes, r, b, v)))
  {
    hide Counted, SeenSound, Justified, Committed, Locking, Polka, AddVote, Genuine;
    assert NodeOk(power, nodes, p);
    var e := nodes[p];
    var e' := e.(prevotes := AddVote(power, e.prevotes, r, b, v));
    AddVoteCounted(power, e.prevotes, r, b, v);
    AddVoteSeen(power, e.prevotes, r, b, v);
    JustifiedGrows(power, e, e', r, b, v);
    MorePolkas(power, e, e', r, b, v);
    LockingGrows(power, e, e');
    SoundAfterPrevote(nodes, e, e', r, b, v);
    Unsigned(power, nodes, p, e');
  }

  lemma SeePrecommitKeeps(power: Power, nodes: Nodes, p: Validator, r: Round, b: Ballot, v: Validator)
    requires Invariant(power, nodes) && p in nodes && (r, v) !in nodes[p].precommits.seen
    requires Genuine(nodes, false, r, b, v)
    ensures Keeps(power, nodes, p, nodes[p].(precommits := AddVote(power, nodes[p].precommits, r, b, v)))
  {
    hide Counted, SeenSound, Justified, Committed, Locking, Polka, AddVote, Genuine;
    assert NodeOk(power, nodes, p);
    var e := nodes[p];
    var e' := e.(precommits := AddVote(power, e.precommits, r, b, v));
    AddVoteCounted(power, e.precommits, r, b, v);
    AddVoteSeen(power, e.precommits, r, b, v);
    JustifiedSame(power, e, e');
    SamePolka(power, e, e');
    LockingGrows(power, e, e');
    SoundAfterPrecommit(nodes, e, e', r, b, v);
    Unsigned(power, nodes, p, e');
  }

  /** Locking on a block with a polka in the current round, before precommitting there. */
  lemma LockKeeps(power: Power, nodes: Nodes, p: Validator, h: Hash)
    requires Invariant(power, nodes) && p in nodes
    requires Polka(power, nodes[p], nodes[p].round, h) && nodes[p].round !in nodes[p].signedPrecommits
    ensures Keeps(power, nodes, p, LockOn(nodes[p], h))
  {
    hide Counted, Resilient, Quorum, Supporters, Polka, SeenSound, Justified, Locking;
    assert NodeOk(power, nodes, p);
    var e, e' := nodes[p], LockOn(nodes[p], h);
    JustifiedSame(power, e, e');
    LockingLock(power, e, h);
    SameSeen(nodes, e, e');
    SoundForOthers(nodes, p, e', e');
    forall r0: Round, h0: Hash | Precommitted(e', r0, h0) && Quorum(power, Supporters(power, nodes, r0, h0))
        && Resilient(power, nodes.Keys)
      ensures HoldsTo(e', r0, h0)
    {
      assert Precommitted(e, r0, h0) && r0 < e.round;
      assert HoldsTo(e, r0, h0);
      PolkaAgrees(power, nodes, p, e.round, h, r0, h0);
    }
    Preserved(power, nodes, p, e');
  }

  lemma LockingLock(power: Power, e: Engine, h: Hash)
    requires Locking(power, e) && Polka(power, e, e.round, h)
    requires forall r :: r in e.signedPrecommits ==> r < e.round
    ensures Locking(power, LockOn(e, h))
  {
    hide Polka;
    var e' := LockOn(e, h);
    SamePolka(power, e, e');
    assert forall r: Round, g: Hash :: Precommitted(e', r, g) ==> Precommitted(e, r, g);
    forall r: Round, g: Hash, r': Round | Precommitted(e', r, g) && r' in e'.signedPrevotes && r' > r
      ensures PrevoteExcused(power, e', r, g, r')
    {
      assert PrevoteExcused(power, e, r, g, r');
    }
  }

  lemma LockingPrevote(power: Power, e: Engine, e': Engine, b: Ballot)
    requires Locking(power, e) && MayPrevote(power, e, b) && (e.lockedRound.Some? <==> e.lockedValue.Some?)
    requires forall r: Round, h: Hash :: Polka(power, e, r, h) ==> Polka(power, e', r, h)
    requires e'.signedPrecommits == e.signedPrecommits && e'.signedPrevotes == e.signedPrevotes[e.round := b]
    requires e'.lockedRound == e.lockedRound && e'.lockedValue == e.lockedValue
    ensures Locking(power, e')
  {
    hide Polka;
    assert forall r: Round, h: Hash :: Precommitted(e', r, h) ==> Precommitted(e, r, h);
    forall r: Round, h: Hash, r': Round | Precommitted(e', r, h) && r' in e'.signedPrevotes && r' > r
      ensures PrevoteExcused(power, e', r, h, r')
    {
      if r' != e.round {
        assert PrevoteExcused(power, e, r, h, r');
      } else if b.Some? && b != Some(h) {
        if e.lockedValue == b {
          assert Polka(power, e, e.lockedRound.value, b.value);
        } else {
          var r'' :| r'' > e.lockedRound.value && Polka(power, e, r'', b.value);
        }
      }
    }
  }

  lemma LockingPrecommit(power: Power, e: Engine, e': Engine, b: Ballot)
    requires Locking(power, e) && (forall r :: r in e.signedPrevotes ==> r <= e.round)
    requires b.Some? ==> e.lockedRound == Some(e.round) && e.lockedValue == b
    requires e'.prevotes == e.prevotes && e'.signedPrevotes == e.signedPrevotes
    requires e'.signedPrecommits == e.signedPrecommits[e.round := b]
    requires e'.lockedRound == e.lockedRound && e'.lockedValue == e.lockedValue
    ensures Locking(power, e')
  {
    hide Polka;
    SamePolka(power, e, e');
    assert forall r: Round, h: Hash :: Precommitted(e', r, h) ==>
        Precommitted(e, r, h) || (r == e.round && b == Some(h));
    forall r: Round, h: Hash, r': Round | Precommitted(e', r, h) && r' in e'.signedPrevotes && r' > r
      ensures PrevoteExcused(power, e', r, h, r')
    {
      assert PrevoteExcused(power, e, r, h, r');
    }
  }

  lemma SameSeen(nodes: Nodes, e: Engine, e': Engine)
    requires SeenSound(nodes, e) && e'.prevotes == e.prevotes && e'.precommits == e.precommits
    ensures SeenSound(nodes, e')
  {}

  /** What a prevote for a block needs: no lock, the locked block, or a polka after the lock. */
  ghost predicate MayPrevote(power: Power, e: Engine, b: Ballot) {
    || b.None? || e.lockedRound.None? || e.lockedValue == b
    || exists r :: r > e.lockedRound.value && Polka(power, e, r, b.value)
  }

  lemma NotYetSeen(power: Power, nodes: Nodes, p: Validator)
    requires Invariant(power, nodes) && p in nodes
    ensures nodes[p].round !in nodes[p].signedPrevotes ==> (nodes[p].round, p) !in nodes[p].prevotes.seen
    ensures nodes[p].round !in nodes[p].signedPrecommits ==> (nodes[p].round, p) !in nodes[p].precommits.seen
  {
    assert NodeOk(power, nodes, p);
  }

  lemma SignPrevoteHolds(power: Power, nodes: Nodes, p: Validator, b: Ballot, r0: Round, h0: Hash)
    requires Invariant(power, nodes) && p in nodes
    requires nodes[p].round !in nodes[p].signedPrevotes && MayPrevote(power, nodes[p], b)
    requires Resilient(power, nodes.Keys) && Precommitted(nodes[p], r0, h0)
        && Quorum(power, Supporters(power, nodes, r0, h0))
    ensures HoldsTo(SignPrevote(nodes[p], b), r0, h0)
  {
    hide Counted, Resilient, Quorum, Supporters, Polka, SeenSound, Justified, AddVote;
    assert NodeOk(power, nodes, p);
    var e := nodes[p];
    assert HoldsTo(e, r0, h0);
    if b.Some? && b != Some(h0) {
      var r :| r > e.lockedRound.value && Polka(power, e, r, b.value);
      PolkaAgrees(power, nodes, p, r, b.value, r0, h0);
    }
  }

  lemma SignPrevoteKeeps(power: Power, nodes: Nodes, p: Validator, b: Ballot)
    requires Invariant(power, nodes) && p in nodes
    requires nodes[p].round !in nodes[p].signedPrevotes && MayPrevote(power, nodes[p], b)
    ensures Keeps(power, nodes, p, SignPrevote(nodes[p], b))
  {
    hide Counted, Resilient, Quorum, Supporters, SeenSound, Justified, Locking, Polka, MayPrevote, AddVote;
    hide HoldsTo, Committed;
    assert NodeOk(power, nodes, p);
    NotYetSeen(power, nodes, p);
    var e, e' := nodes[p], SignPrevote(nodes[p], b);
    AddVoteCounted(power, e.prevotes, e.round, b, p);
    AddVoteSeen(power, e.prevotes, e.round, b, p);
    JustifiedGrows(power, e, e', e.round, b, p);
    MorePolkas(power, e, e', e.round, b, p);
    LockingPrevote(power, e, e', b);
    SoundForOthers(nodes, p, e', e);
    SoundAfterPrevote(nodes[p := e'], e, e', e.round, b, p);
    forall r0: Round, h0: Hash | Precommitted(e', r0, h0) && Quorum(power, Supporters(power, nodes, r0, h0))
        && Resilient(power, nodes.Keys)
      ensures HoldsTo(e', r0, h0)
    {
      SignPrevoteHolds(power, nodes, p, b, r0, h0);
    }
    Preserved(power, nodes, p, e');
  }

  lemma JustifiedPrecommit(power: Power, e: Engine, b: Ballot)
    requires Justified(power, e) && e.power == power && (b.Some? ==> Polka(power, e, e.round, b.value))
    ensures Justified(power, SignPrecommit(e, b))
  {
    hide Resilient, Quorum, VotersFor, AddVote;
    var e' := SignPrecommit(e, b);
    forall r: Round, h: Hash | Precommitted(e', r, h) ensures Polka(power, e', r, h) {
      assert Precommitted(e, r, h) || (r == e.round && b == Some(h));
      assert Polka(power, e, r, h);
    }
  }

  lemma SignPrecommitHolds(power: Power, nodes: Nodes, p: Validator, b: Ballot, r0: Round, h0: Hash)
    requires Invariant(power, nodes) && p in nodes
    requires nodes[p].round !in nodes[p].signedPrecommits
    requires b.Some? ==> nodes[p].lockedRound == Some(nodes[p].round) && nodes[p].lockedValue == b
    requires Resilient(power, nodes.Keys) && Precommitted(SignPrecommit(nodes[p], b), r0, h0)
        && Quorum(power, Supporters(power, nodes, r0, h0))
    ensures HoldsTo(SignPrecommit(nodes[p], b), r0, h0)
  {
    hide Counted, Resilient, Quorum, Supporters, Polka, SeenSound, Justified, AddVote;
    assert NodeOk(power, nodes, p);
    var e := nodes[p];
    assert Precommitted(e, r0, h0) || (r0 == e.round && b == Some(h0));
    if Precommitted(e, r0, h0) {
      assert HoldsTo(e, r0, h0);
    }
  }

  lemma SignPrecommitKeeps(power: Power, nodes: Nodes, p: Validator, b: Ballot)
    requires Invariant(power, nodes) && p in nodes
    requires nodes[p].round !in nodes[p].signedPrecommits
    requires nodes[p].step != Propose && nodes[p].step != Prevote
    requires b.Some? ==> nodes[p].lockedRound == Some(nodes[p].round) && nodes[p].lockedValue == b
    requires b.Some? ==> Polka(power, nodes[p], nodes[p].round, b.value)
    ensures Keeps(power, nodes, p, SignPrecommit(nodes[p], b))
  {
    hide Counted, Resilient, Quorum, Supporters, SeenSound, Justified, Locking, Polka, AddVote, HoldsTo, Committed;
    assert NodeOk(power, nodes, p);
    NotYetSeen(power, nodes, p);
    var e, e' := nodes[p], SignPrecommit(nodes[p], b);
    AddVoteCounted(power, e.precommits, e.round, b, p);
    AddVoteSeen(power, e.precommits, e.round, b, p);
    JustifiedPrecommit(power, e, b);
    LockingPrecommit(power, e, e', b);
    SoundForOthers(nodes, p, e', e);
    SoundAfterPrecommit(nodes[p := e'], e, e', e.round, b, p);
    forall r0: Round, h0: Hash | Precommitted(e', r0, h0) && Quorum(power, Supporters(power, nodes, r0, h0))
        && Resilient(power, nodes.Keys)
      ensures HoldsTo(e', r0, h0)
    {
      SignPrecommitHolds(power, nodes, p, b, r0, h0);
    }
    Preserved(power, nodes, p, e');
  }

  // ---------------------------------------------------------------------
  // Commits
  // ---------------------------------------------------------------------

  /** Byzantine validators, and the honest ones that precommitted `h` at `r`. */
  ghost function Signers(power: Power, nodes: Nodes, r: Round, h: Hash): set<Validator> {
    set v | v in power && (v in nodes ==> Precommitted(nodes[v], r, h))
  }

  /** Enough stake stands behind committing `h` at `r`. */
  ghost predicate Certified(power: Power, nodes: Nodes, r: Round, h: Hash) {
    Quorum(power, Signers(power, nodes, r, h))
  }

  lemma CertifiedStays(power: Power, nodes: Nodes, p: Validator, e': Engine, r: Round, h: Hash)
    requires p in nodes && Evolves(nodes[p], e') && Certified(power, nodes, r, h)
    ensures Certified(power, nodes[p := e'], r, h)
  {
    QuorumMonotone(power, Signers(power, nodes, r, h), Signers(power, nodes[p := e'], r, h));
  }

  /** A majority in an honest engine's precommit tally is a real certificate. */
  lemma MajorityCertifies(power: Power, nodes: Nodes, p: Validator, r: Round, h: Hash)
    requires Invariant(power, nodes) && p in nodes && PrecommitMajority(nodes[p], r, Some(h))
    ensures Certified(power, nodes, r, h)
  {
    assert NodeOk(power, nodes, p);
    var e := nodes[p];
    assert BucketRight(power, e.precommits, r, Some(h));
    var voters := VotersFor(e.precommits, r, Some(h));
    hide Counted, Committed, Justified;
    forall v | v in voters && v in power ensures v in Signers(power, nodes, r, h) {
      assert (r, v) in e.precommits.seen;
    }
    StakeMonotone(power, voters, Signers(power, nodes, r, h));
  }

  lemma MajorityIsPolka(power: Power, nodes: Nodes, p: Validator, r: Round, h: Hash)
    requires Invariant(power, nodes) && p in nodes && PrevoteMajority(nodes[p], r, Some(h))
    ensures Polka(power, nodes[p], r, h)
  {
    assert NodeOk(power, nodes, p);
    assert BucketRight(power, nodes[p].prevotes, r, Some(h));
  }

  lemma PolkaForIsPolka(power: Power, nodes: Nodes, p: Validator, r: Round, h: Hash)
    requires Invariant(power, nodes) && p in nodes && HasPolkaFor(nodes[p], r, Some(h))
    ensures Polka(power, nodes[p], r, h)
  {
    assert NodeOk(power, nodes, p);
    assert BucketRight(power, nodes[p].prevotes, r, Some(h));
  }

  /** Two certificates of one height are for the same block. */
  lemma CertificatesAgree(power: Power, nodes: Nodes, r1: Round, h1: Hash, r2: Round, h2: Hash)
    requires Resilient(power, nodes.Keys) && Invariant(power, nodes) && r1 <= r2
    requires Certified(power, nodes, r1, h1) && Certified(power, nodes, r2, h2)
    ensures h1 == h2
  {
    if r1 == r2 {
      var q := QuorumsMeet(power, nodes.Keys, Signers(power, nodes, r1, h1), Signers(power, nodes, r2, h2));
    } else {
      var s2 := Signers(power, nodes, r2, h2);
      var q := QuorumsMeet(power, nodes.Keys, s2, s2);
      assert NodeOk(power, nodes, q);
      assert Polka(power, nodes[q], r2, h2);
      QuorumMonotone(power, Signers(power, nodes, r1, h1), Supporters(power, nodes, r1, h1));
      PolkaAgrees(power, nodes, q, r2, h2, r1, h1);
    }
  }

  // ---------------------------------------------------------------------
  // Each handler keeps the invariant and commits only with a certificate
  // ---------------------------------------------------------------------

  ghost predicate Backed(power: Power, nodes: Nodes, actions: seq<Action>) {
    forall a :: a in actions && a.CommitBlock? ==> Certified(power, nodes, a.round, a.block)
  }

  /** The outcome of handling an event is safe. */
  ghost predicate Safe(power: Power, nodes: Nodes, p: Validator, out: Out) {
    Keeps(power, nodes, p, out.engine) && Backed(power, nodes[p := out.engine], out.actions)
  }

  lemma Quiet(power: Power, nodes: Nodes, p: Validator, out: Out)
    requires Keeps(power, nodes, p, out.engine) && forall a :: a in out.actions ==> !a.CommitBlock?
    ensures Safe(power, nodes, p, out)
  {}

  lemma Still(power: Power, nodes: Nodes, p: Validator)
    requires Invariant(power, nodes) && p in nodes
    ensures Keeps(power, nodes, p, nodes[p])
  {
    assert nodes[p := nodes[p]] == nodes;
  }

  /** Moves compose. */
  lemma Chain(power: Power, nodes: Nodes, p: Validator, e1: Engine, e2: Engine)
    requires Keeps(power, nodes, p, e1) && Keeps(power, nodes[p := e1], p, e2)
    ensures Keeps(power, nodes, p, e2)
  {
    hide Invariant;
    assert nodes[p := e1][p := e2] == nodes[p := e2];
  }

  /** Handling composes: `out` then `next`, the actions of both. */
  lemma ChainSafe(power: Power, nodes: Nodes, p: Validator, out: Out, next: Out)
    requires Safe(power, nodes, p, out) && Safe(power, nodes[p := out.engine], p, next)
    ensures Safe(power, nodes, p, Then(out, next))
  {
    hide Invariant, Evolves, Certified;
    var mid := nodes[p := out.engine];
    Chain(power, nodes, p, out.engine, next.engine);
    assert mid[p := next.engine] == nodes[p := next.engine];
    forall a | a in out.actions && a.CommitBlock? ensures Certified(power, nodes[p := next.engine], a.round, a.block) {
      CertifiedStays(power, mid, p, next.engine, a.round, a.block);
    }
  }

  /** A safe move followed by a safe handling. */
  lemma MoveThenSafe(power: Power, nodes: Nodes, p: Validator, e1: Engine, next: Out)
    requires Keeps(power, nodes, p, e1) && Safe(power, nodes[p := e1], p, next)
    ensures Safe(power, nodes, p, next)
  {
    hide Invariant, Evolves, Backed;
    Chain(power, nodes, p, e1, next.engine);
    assert nodes[p := e1][p := next.engine] == nodes[p := next.engine];
  }

  /** Ready to precommit `b`: past prevoting, and locked on `b` with its polka if it is a block. */
  ghost predicate ReadyToPrecommit(power: Power, e: Engine, b: Ballot) {
    && e.step != Propose && e.step != Prevote
    && (b.Some? ==> e.lockedRound == Some(e.round) && e.lockedValue == b && Polka(power, e, e.round, b.value))
  }

  lemma DoPrecommitSafe(power: Power, nodes: Nodes, p: Validator, b: Ballot)
    requires Invariant(power, nodes) && p in nodes && ReadyToPrecommit(power, nodes[p], b)
    ensures Safe(power, nodes, p, DoPrecommit(nodes[p], b))
  {
    hide Invariant, Evolves, Certified, Polka, AddVote, PrecommitMajority;
    var e := nodes[p];
    var out := DoPrecommit(e, b);
    if e.round in e.signedPrecommits {
      Still(power, nodes, p);
      Quiet(power, nodes, p, out);
    } else {
      var signed := SignPrecommit(e, b);
      SignPrecommitKeeps(power, nodes, p, b);
      var mid := nodes[p := signed];
      if !PrecommitMajority(signed, e.round, b) {
        Quiet(power, nodes, p, out);
      } else if b.None? {
        StartRoundKeeps(power, mid, p, e.round + 1);
        Chain(power, nodes, p, signed, out.engine);
        Quiet(power, nodes, p, out);
      } else if b.value in signed.blocks {
        TransitionKeeps(power, mid, p, Commit);
        Chain(power, nodes, p, signed, out.engine);
        MajorityCertifies(power, mid, p, e.round, b.value);
        CertifiedStays(power, mid, p, out.engine, e.round, b.value);
        assert mid[p := out.engine] == nodes[p := out.engine];
      } else {
        Quiet(power, nodes, p, out);
      }
    }
  }

  lemma DoPrevoteSafe(power: Power, nodes: Nodes, p: Validator, b: Ballot)
    requires Invariant(power, nodes) && p in nodes && MayPrevote(power, nodes[p], b) && nodes[p].step == Propose
    ensures Safe(power, nodes, p, DoPrevote(nodes[p], b))
  {
    hide Invariant, Evolves, Certified, AddVote, PrevoteMajority, DoPrecommit, Backed, MayPrevote;
    var e := nodes[p];
    var out := DoPrevote(e, b);
    SaneOf(power, nodes, p);
    if e.round in e.signedPrevotes {
      Still(power, nodes, p);
      Quiet(power, nodes, p, out);
    } else {
      var moved := TransitionTo(e, Prevote);
      TransitionKeeps(power, nodes, p, Prevote);
      MayPrevoteSame(power, e, moved, b);
      var n1 := nodes[p := moved];
      SignPrevoteKeeps(power, n1, p, b);
      var signed := SignPrevote(moved, b);
      Chain(power, nodes, p, moved, signed);
      var n2 := nodes[p := signed];
      var sent := Out(signed, [BroadcastPrevote(e.round, b)]);
      Quiet(power, nodes, p, sent);
      if PrevoteMajority(signed, e.round, b) {
        var locked := if b.Some? then LockOn(signed, b.value) else signed;
        LockIfBlock(power, n2, p, b);
        var n3 := n2[p := locked];
        TransitionKeeps(power, n3, p, Precommit);
        var ready := TransitionTo(locked, Precommit);
        Chain(power, n2, p, locked, ready);
        var n4 := n2[p := ready];
        assert n3[p := ready] == n4;
        PolkaSame(power, locked, ready, b);
        DoPrecommitSafe(power, n4, p, b);
        MoveThenSafe(power, n2, p, ready, DoPrecommit(ready, b));
        ChainSafe(power, nodes, p, sent, DoPrecommit(ready, b));
      }
    }
  }

  lemma MayPrevoteSame(power: Power, e: Engine, e': Engine, b: Ballot)
    requires MayPrevote(power, e, b)
    requires e'.lockedRound == e.lockedRound && e'.lockedValue == e.lockedValue && e'.prevotes == e.prevotes
    ensures MayPrevote(power, e', b)
  {
    SamePolka(power, e, e');
  }

  lemma PolkaSame(power: Power, e: Engine, e': Engine, b: Ballot)
    requires e.prevotes == e'.prevotes && e.round == e'.round
    requires b.Some? ==> Polka(power, e, e.round, b.value)
    ensures b.Some? ==> Polka(power, e', e'.round, b.value)
  {
    SamePolka(power, e, e');
  }

  /** Locking, when the majority is for a block. */
  lemma LockIfBlock(power: Power, nodes: Nodes, p: Validator, b: Ballot)
    requires Invariant(power, nodes) && p in nodes
    requires PrevoteMajority(nodes[p], nodes[p].round, b) && nodes[p].round !in nodes[p].signedPrecommits
    ensures var locked := if b.Some? then LockOn(nodes[p], b.value) else nodes[p];
            Keeps(power, nodes, p, locked) && (b.Some? ==> Polka(power, locked, locked.round, b.value))
  {
    hide Invariant, Evolves, PrevoteMajority;
    if b.Some? {
      MajorityIsPolka(power, nodes, p, nodes[p].round, b.value);
      LockKeeps(power, nodes, p, b.value);
      SamePolka(power, nodes[p], LockOn(nodes[p], b.value));
    } else {
      Still(power, nodes, p);
    }
  }

  lemma PrevoteForProposalSafe(power: Power, nodes: Nodes, p: Validator, proposal: Proposal)
    requires Invariant(power, nodes) && p in nodes
    ensures Safe(power, nodes, p, PrevoteForProposal(nodes[p], proposal))
  {
    hide Invariant, Safe, DoPrevote, HasPolkaFor, Polka;
    var e := nodes[p];
    if proposal.round != e.round || e.step != Propose {
      Still(power, nodes, p);
      Quiet(power, nodes, p, Out(e, []));
    } else if ShouldPrevote(e, proposal) {
      if !(e.lockedRound.None? || e.lockedValue == Some(proposal.block)) {
        PolkaForIsPolka(power, nodes, p, proposal.validRound, proposal.block);
      }
      DoPrevoteSafe(power, nodes, p, Some(proposal.block));
    } else {
      DoPrevoteSafe(power, nodes, p, None);
    }
  }

  lemma NothingSafe(power: Power, nodes: Nodes, p: Validator)
    requires Invariant(power, nodes) && p in nodes
    ensures Safe(power, nodes, p, Out(nodes[p], []))
  {
    Still(power, nodes, p);
    Quiet(power, nodes, p, Out(nodes[p], []));
  }

  /** A nil prevote only leaves its round by starting the next one. */
  lemma NilPrevoteRestarts(e: Engine)
    requires DoPrevote(e, None).engine.round > e.round
    ensures DoPrevote(e, None).engine.step == Propose
  {
    hide PrevoteMajority, PrecommitMajority, AddVote;
  }

  lemma {:induction false} CatchUpSafe(power: Power, nodes: Nodes, p: Validator, n: nat)
    requires Invariant(power, nodes) && p in nodes && nodes[p].step == Propose
    ensures Safe(power, nodes, p, CatchUp(nodes[p], n))
    decreases n
  {
    hide Invariant, Safe, DoPrevote, PrevoteForProposal;
    var e := nodes[p];
    if n == 0 {
      NothingSafe(power, nodes, p);
    } else if e.round in e.proposals {
      PrevoteForProposalSafe(power, nodes, p, e.proposals[e.round]);
    } else {
      var out := DoPrevote(e, None);
      DoPrevoteSafe(power, nodes, p, None);
      if out.engine.round > e.round {
        NilPrevoteRestarts(e);
        SafeInvariant(power, nodes, p, out);
        CatchUpSafe(power, nodes[p := out.engine], p, n - 1);
        ChainSafe(power, nodes, p, out, CatchUp(out.engine, n - 1));
      }
    }
  }

  lemma SafeInvariant(power: Power, nodes: Nodes, p: Validator, out: Out)
    requires Safe(power, nodes, p, out)
    ensures p in nodes && Invariant(power, nodes[p := out.engine])
  {}

  lemma SkipSafe(power: Power, nodes: Nodes, p: Validator, r: Round)
    requires Invariant(power, nodes) && p in nodes
    ensures Safe(power, nodes, p, SkipIfAhead(nodes[p], r))
  {
    hide Invariant, Safe, CatchUp, HighestSeen, FutureVoters, Evolves;
    var e := nodes[p];
    var out := SkipIfAhead(e, r);
    if out == Out(e, []) {
      NothingSafe(power, nodes, p);
    } else {
      var r': Round :| r' > e.round && out == CatchUp(StartRound(e, r'), 100);
      StartRoundKeeps(power, nodes, p, r');
      CatchUpSafe(power, nodes[p := StartRound(e, r')], p, 100);
      MoveThenSafe(power, nodes, p, StartRound(e, r'), out);
    }
  }

  lemma OnPolkaSafe(power: Power, nodes: Nodes, p: Validator, r: Round)
    requires Invariant(power, nodes) && p in nodes
    ensures Safe(power, nodes, p, OnPolka(nodes[p], r))
  {
    hide Invariant, Safe, DoPrecommit, PrevoteMajority, Evolves, Polka;
    var e := nodes[p];
    var out := OnPolka(e, r);
    SaneOf(power, nodes, p);
    if r == e.round && e.step == Prevote && (exists h: Hash :: PrevoteMajority(e, r, Some(h))) {
      var h: Hash :| PrevoteMajority(e, r, Some(h))
          && out == DoPrecommit(TransitionTo(LockOn(e, h), Precommit), Some(h));
      var locked := LockOn(e, h);
      var ready := TransitionTo(locked, Precommit);
      LockIfBlock(power, nodes, p, Some(h));
      TransitionKeeps(power, nodes[p := locked], p, Precommit);
      Chain(power, nodes, p, locked, ready);
      PolkaSame(power, locked, ready, Some(h));
      DoPrecommitSafe(power, nodes[p := ready], p, Some(h));
      MoveThenSafe(power, nodes, p, ready, out);
    } else {
      NothingSafe(power, nodes, p);
    }
  }

  lemma NilPrecommitSafe(power: Power, nodes: Nodes, p: Validator)
    requires Invariant(power, nodes) && p in nodes && nodes[p].step == Prevote
    ensures Safe(power, nodes, p, DoPrecommit(TransitionTo(nodes[p], Precommit), None))
  {
    hide Invariant, Safe, DoPrecommit, Evolves;
    var ready := TransitionTo(nodes[p], Precommit);
    TransitionKeeps(power, nodes, p, Precommit);
    DoPrecommitSafe(power, nodes[p := ready], p, None);
    MoveThenSafe(power, nodes, p, ready, DoPrecommit(ready, None));
  }

  lemma OnPrevoteSafe(power: Power, nodes: Nodes, p: Validator, r: Round, b: Ballot, v: Validator)
    requires Invariant(power, nodes) && p in nodes && Genuine(nodes, true, r, b, v)
    ensures Safe(power, nodes, p, OnPrevote(nodes[p], r, b, v))
  {
    hide Invariant, Safe, OnPolka, OnNilPolka, SkipIfAhead, AddVote, Genuine, Evolves;
    var e := nodes[p];
    SaneOf(power, nodes, p);
    if v !in e.power || (r, v) in e.prevotes.seen {
      Still(power, nodes, p);
      Quiet(power, nodes, p, OnPrevote(e, r, b, v));
    } else {
      var e1 := e.(prevotes := AddVote(e.power, e.prevotes, r, b, v));
      SeePrevoteKeeps(power, nodes, p, r, b, v);
      var n1 := nodes[p := e1];
      var o1 := OnPolka(e1, r);
      OnPolkaSafe(power, n1, p, r);
      SafeInvariant(power, n1, p, o1);
      OnNilPolkaSafe(power, n1[p := o1.engine], p, r);
      var o2 := Then(o1, OnNilPolka(o1.engine, r));
      ChainSafe(power, n1, p, o1, OnNilPolka(o1.engine, r));
      SafeInvariant(power, n1, p, o2);
      SkipSafe(power, n1[p := o2.engine], p, r);
      ChainSafe(power, n1, p, o2, SkipIfAhead(o2.engine, r));
      MoveThenSafe(power, nodes, p, e1, OnPrevote(e, r, b, v));
    }
  }

  lemma OnNilPolkaSafe(power: Power, nodes: Nodes, p: Validator, r: Round)
    requires Invariant(power, nodes) && p in nodes
    ensures Safe(power, nodes, p, OnNilPolka(nodes[p], r))
  {
    hide Invariant, Safe, DoPrecommit, PrevoteMajority;
    if nodes[p].step == Prevote {
      NilPrecommitSafe(power, nodes, p);
    }
    NothingSafe(power, nodes, p);
  }

  lemma AfterPrecommitSafe(power: Power, nodes: Nodes, p: Validator, r: Round)
    requires Invariant(power, nodes) && p in nodes
    ensures Safe(power, nodes, p, AfterPrecommit(nodes[p], r))
  {
    hide Invariant, SkipIfAhead, PrecommitMajority;
    var e := nodes[p];
    if r == e.round && PrecommitMajority(e, r, None) {
      StartRoundKeeps(power, nodes, p, r + 1);
      Quiet(power, nodes, p, AfterPrecommit(e, r));
    } else {
      SkipSafe(power, nodes, p, r);
    }
  }

  lemma CommitSafe(power: Power, nodes: Nodes, p: Validator, r: Round, h: Hash)
    requires Invariant(power, nodes) && p in nodes && PrecommitMajority(nodes[p], r, Some(h))
    ensures Safe(power, nodes, p, Out(TransitionTo(nodes[p], Commit), [CommitBlock(r, h)]))
  {
    hide Invariant, Evolves, Certified, PrecommitMajority;
    var e' := TransitionTo(nodes[p], Commit);
    TransitionKeeps(power, nodes, p, Commit);
    MajorityCertifies(power, nodes, p, r, h);
    CertifiedStays(power, nodes, p, e', r, h);
  }

  lemma OnPrecommitSafe(power: Power, nodes: Nodes, p: Validator, r: Round, b: Ballot, v: Validator)
    requires Invariant(power, nodes) && p in nodes && Genuine(nodes, false, r, b, v)
    ensures Safe(power, nodes, p, OnPrecommit(nodes[p], r, b, v))
  {
    hide Invariant, Safe, AfterPrecommit, AddVote, Genuine, PrecommitMajority, Evolves;
    var e := nodes[p];
    var out := OnPrecommit(e, r, b, v);
    SaneOf(power, nodes, p);
    if v !in e.power || (r, v) in e.precommits.seen || e.step == Commit {
      Still(power, nodes, p);
      Quiet(power, nodes, p, out);
    } else {
      var e1 := e.(precommits := AddVote(e.power, e.precommits, r, b, v));
      SeePrecommitKeeps(power, nodes, p, r, b, v);
      var n1 := nodes[p := e1];
      AfterPrecommitSafe(power, n1, p, r);
      if exists h: Hash :: PrecommitMajority(e1, r, Some(h)) {
        var h: Hash :| PrecommitMajority(e1, r, Some(h)) &&
          out == if h in e1.blocks then Out(TransitionTo(e1, Commit), [CommitBlock(r, h)])
                 else Then(Out(e1, [RequestBlock(h)]), AfterPrecommit(e1, r));
        if h in e1.blocks {
          CommitSafe(power, n1, p, r, h);
        } else {
          Still(power, n1, p);
          Quiet(power, n1, p, Out(e1, [RequestBlock(h)]));
          assert n1[p := e1] == n1;
          ChainSafe(power, n1, p, Out(e1, [RequestBlock(h)]), AfterPrecommit(e1, r));
        }
      }
      MoveThenSafe(power, nodes, p, e1, out);
    }
  }

  lemma OnTimeoutSafe(power: Power, nodes: Nodes, p: Validator, s: Step, r: Round)
    requires Invariant(power, nodes) && p in nodes
    ensures Safe(power, nodes, p, OnTimeout(nodes[p], s, r))
  {
    hide Invariant, DoPrevote, DoPrecommit, Evolves;
    var e := nodes[p];
    NothingSafe(power, nodes, p);
    if r == e.round && s == e.step {
      match s
      case Propose => DoPrevoteSafe(power, nodes, p, None);
      case Prevote => NilPrecommitSafe(power, nodes, p);
      case Precommit =>
        StartRoundKeeps(power, nodes, p, e.round + 1);
        Quiet(power, nodes, p, OnTimeout(e, s, r));
      case Commit =>
    }
  }

  lemma OnProposalSafe(power: Power, nodes: Nodes, p: Validator, proposal: Proposal, acceptable: bool)
    requires Invariant(power, nodes) && p in nodes
    ensures Safe(power, nodes, p, OnProposal(nodes[p], proposal, acceptable))
  {
    hide Invariant, Safe, PrevoteForProposal, Evolves;
    var e := nodes[p];
    NothingSafe(power, nodes, p);
    if !(proposal.round < e.round || !acceptable) {
      var stored := e.(blocks := e.blocks + {proposal.block}, proposals := e.proposals[proposal.round := proposal]);
      StoreKeeps(power, nodes, p, stored.blocks, stored.proposals);
      PrevoteForProposalSafe(power, nodes[p := stored], p, proposal);
      MoveThenSafe(power, nodes, p, stored, PrevoteForProposal(stored, proposal));
    }
  }

  lemma CreateProposalSafe(power: Power, nodes: Nodes, p: Validator, freshBlock: Hash)
    requires Invariant(power, nodes) && p in nodes
    ensures Safe(power, nodes, p, CreateProposal(nodes[p], freshBlock))
  {
    hide Invariant, Safe, DoPrevote, Evolves;
    var e := nodes[p];
    var out := CreateProposal(e, freshBlock);
    SaneOf(power, nodes, p);
    NothingSafe(power, nodes, p);
    if out != Out(e, []) {
      var proposal := out.actions[0].proposal;
      var block := proposal.block;
      var stored := e.(blocks := e.blocks + {block}, proposals := e.proposals[e.round := proposal]);
      StoreKeeps(power, nodes, p, stored.blocks, stored.proposals);
      var n1 := nodes[p := stored];
      DoPrevoteSafe(power, n1, p, Some(block));
      var announced := Out(stored, [BroadcastProposal(proposal)]);
      Still(power, n1, p);
      Quiet(power, n1, p, announced);
      assert n1[p := stored] == n1;
      ChainSafe(power, n1, p, announced, DoPrevote(stored, Some(block)));
      MoveThenSafe(power, nodes, p, stored, out);
    }
  }
}
