/** A settlement plan written out event by event (`cacheon/settlement.py`, `plan_settlement`). */
module PlanOutcome {
  import opened Orders
  import opened Wrappers
  import opened Settlement
  import opened SettlementOutcome

  /** The candidates in the order the journal takes them up. */
  datatype Verdict = Verdict(held: seq<Candidate>, lost: seq<Candidate>, winner: Option<Candidate>)

  function Listed(v: Verdict): seq<Candidate> {
    v.held + v.lost + if v.winner.Some? then [v.winner.value] else []
  }

  ghost predicate Outruns(w: Candidate, c: Candidate) {
    c.Speedup() < w.Speedup() || (c.Speedup() == w.Speedup() && NotLater(w, c))
  }

  /** Every candidate once: those that may not win, the beaten, and the fastest, each in finalized order. */
  ghost predicate Judged(h: Hashes, r: Round, rows: seq<Candidate>, v: Verdict) {
    && multiset(rows) == multiset(Listed(v))
    && InOrder(v.held) && (forall c :: c in v.held ==> !MayWin(h, r, c))
    && InOrder(v.lost)
    && (forall c :: c in v.lost ==> MayWin(h, r, c) && v.winner.Some? && Outruns(v.winner.value, c))
    && (v.winner.Some? ==> MayWin(h, r, v.winner.value))
  }

  /** The event's place in the chain from the round's journal head. */
  ghost predicate Placed(h: Hashes, r: Round, events: seq<Event>, i: nat)
    requires i < |events|
  {
    events[i].sequence == r.sequence + i && events[i].previous == if i == 0 then r.previous else h.event(events[i - 1])
  }

  ghost predicate Writes(
    h: Hashes, e: Event, c: Candidate, kind: Kind, subject: string, target: string, to: Arm, now: Arm)
  {
    && e.kind == kind && e.candidate == h.candidate(c) && e.subject == subject && e.target == target
    && e.from == now && e.to == to
  }

  ghost predicate HoldAt(h: Hashes, r: Round, v: Verdict, e: Event, i: nat)
    requires i < |v.held| + |v.lost|
  {
    var now := Arm(h.manifest(r.manifest), r.tree);
    var c := if i < |v.held| then v.held[i] else v.lost[i - |v.held|];
    && Writes(h, e, c, HOLD, c.delta, c.target, now, now)
    && if i < |v.held| then HeldFor(r, c, e.reason) else v.winner.Some? && LostFor(c, v.winner.value, e.reason)
  }

  /** The winner was measured on an artifact other than its target's tip. */
  ghost predicate FromAncestor(r: Round, w: Candidate) {
    w.target in r.tips && !MeasuredOn(w, r.tips[w.target][|r.tips[w.target]| - 1].artifact)
  }

  /** CROWN, the RETIREMENT of a replaced entry, ADOPTION, STACK_TRANSITION. */
  ghost predicate CrownsWith(h: Hashes, r: Round, w: Candidate, t: Transition, tail: seq<Event>)
    requires w.target in w.proposed.entries
  {
    var now, prior, ref := Arm(h.manifest(r.manifest), r.tree), r.manifest.entries, h.ref(w.proposed.entries[w.target]);
    && |tail| == (if w.target in prior then 4 else 3)
    && Writes(h, tail[0], w, CROWN, ref, w.target, now, now)
    && tail[0].reason == (if FromAncestor(r, w) then "qualified_ancestor_win" else "qualified_win")
    && (w.target in prior ==>
          && Writes(h, tail[1], w, RETIREMENT, h.ref(prior[w.target]), prior[w.target].target, now, now)
          && tail[1].reason == "superseded")
    && Writes(h, tail[|tail| - 2], w, ADOPTION, ref, w.target, t.after, now) && tail[|tail| - 2].reason == "adopted"
    && Writes(h, tail[|tail| - 1], w, STACK_TRANSITION, t.after.stack, w.target, t.after, now)
    && tail[|tail| - 1].reason == "incumbent_updated"
  }

  /** The current stack with the winner's entry, under the measured tree where it was measured so. */
  ghost predicate Adopts(h: Hashes, r: Round, w: Candidate, t: Transition)
    requires w.target in w.proposed.entries
  {
    && t.candidate == h.candidate(w) && t.before == Arm(h.manifest(r.manifest), r.tree)
    && Composed(r.manifest, w, t.manifest) && Identified(h, r, w, t.manifest, t.after)
  }

  /** One chain from the journal head, written against the current stack. */
  ghost predicate OnChain(h: Hashes, r: Round, p: Plan) {
    && p.before == Arm(h.manifest(r.manifest), r.tree)
    && forall i :: 0 <= i < |p.events| ==> Placed(h, r, p.events, i)
  }

  ghost predicate HoldsEach(h: Hashes, r: Round, v: Verdict, p: Plan) {
    && |v.held| + |v.lost| <= |p.events|
    && forall i :: 0 <= i < |v.held| + |v.lost| ==> HoldAt(h, r, v, p.events[i], i)
  }

  /** From `n` on, the events of the winner, whose transition the plan reports. */
  ghost predicate CrownedAt(h: Hashes, r: Round, w: Candidate, p: Plan, n: int) {
    && w.target in w.proposed.entries && p.winner == h.candidate(w) && p.transition.Some?
    && p.after == p.transition.value.after && Adopts(h, r, w, p.transition.value)
    && 0 <= n <= |p.events| && CrownsWith(h, r, w, p.transition.value, p.events[n..])
  }

  ghost predicate Concludes(h: Hashes, r: Round, v: Verdict, p: Plan) {
    match v.winner
    case None => |p.events| == |v.held| + |v.lost| && p.winner == "" && p.after == p.before && p.transition == None
    case Some(w) => CrownedAt(h, r, w, p, |v.held| + |v.lost|)
  }

  ghost predicate Carries(h: Hashes, r: Round, v: Verdict, p: Plan) {
    OnChain(h, r, p) && HoldsEach(h, r, v, p) && Concludes(h, r, v, p)
  }

  ghost predicate IsPlan(h: Hashes, r: Round, rows: seq<Candidate>, p: Plan) {
    exists v :: Judged(h, r, rows, v) && Carries(h, r, v, p)
  }

  /** Qualified candidates that name modules of the model. */
  ghost predicate Admissible(rows: seq<Candidate>) {
    forall c :: c in rows ==> Qualified(c) && Addressed(c)
  }

  // ----- the plan of the source is this one

  ghost function VerdictOf(h: Hashes, r: Round, rows: seq<Candidate>): Verdict {
    var e := EligibleRows(h, r, rows);
    Verdict(HeldRows(h, r, rows), if e == [] then [] else Others(e, First(e)), WinnerOf(h, r, rows))
  }

  lemma VerdictJudged(h: Hashes, r: Round, rows: seq<Candidate>)
    requires Targeted(rows) && PlanOf(h, r, rows).Some?
    ensures Judged(h, r, rows, VerdictOf(h, r, rows)) && Listed(VerdictOf(h, r, rows)) == Queue(h, r, rows)
  {
    var v, e := VerdictOf(h, r, rows), EligibleRows(h, r, rows);
    DigestsApart(h, rows);
    QueueIsRows(h, r, rows);
    assert Listed(v) == Queue(h, r, rows);
    KeepElements(rows, IsEligible(h, r));
    SortInOrder(Keep(rows, IsHeld(h, r)));
    forall c | c in v.held ensures !MayWin(h, r, c) {
      HeldElements(h, r, rows, c);
      ReasonMeaning(h, r, c);
    }
    WinnerMeaning(h, r, rows);
    if e != [] {
      SortInOrder(Keep(e, IsOther(First(e))));
      forall c | c in v.lost ensures MayWin(h, r, c) && Outruns(First(e), c) {
        OtherElements(e, First(e), c);
        ReasonMeaning(h, r, c);
      }
    }
  }

  lemma ChainedPlaced(h: Hashes, r: Round, events: seq<Event>, i: nat)
    requires Chained(h, events, r.sequence, r.previous) && i < |events|
    ensures Placed(h, r, events, i)
  {
  }

  lemma ToldHold(h: Hashes, r: Round, v: Verdict, events: seq<Event>, i: nat)
    requires i < |v.held| + |v.lost| && ToldAt(h, r, events, Listed(v)[i], v.winner, i)
    requires v.winner != Some(Listed(v)[i]) && (MayWin(h, r, Listed(v)[i]) <==> |v.held| <= i)
    ensures HoldAt(h, r, v, events[i], i)
  {
    assert Listed(v)[i] == if i < |v.held| then v.held[i] else v.lost[i - |v.held|];
  }

  lemma QueueTold(h: Hashes, r: Round, rows: seq<Candidate>, i: nat)
    requires Targeted(rows) && PlanOf(h, r, rows).Some? && Admissible(rows) && i < |Queue(h, r, rows)|
    ensures ToldAt(h, r, PlanOf(h, r, rows).value.events, Queue(h, r, rows)[i], WinnerOf(h, r, rows), i)
  {
    var queue, events, winner := Queue(h, r, rows), PlanOf(h, r, rows).value.events, WinnerOf(h, r, rows);
    QueueDisposed(h, r, rows, i);
    WinnerMeaning(h, r, rows);
    ToldBy(h, r, rows, events, queue[i], winner, i);
  }

  lemma QueueDisposed(h: Hashes, r: Round, rows: seq<Candidate>, i: nat)
    requires Targeted(rows) && PlanOf(h, r, rows).Some? && i < |Queue(h, r, rows)|
    ensures OnlyDisposal(h, r, PlanOf(h, r, rows).value.events, Queue(h, r, rows)[i], WinnerOf(h, r, rows), i)
    ensures Queue(h, r, rows)[i] in rows
  {
    var queue := Queue(h, r, rows);
    QueueContents(h, r, rows);
    DigestsApart(h, rows);
    PlanLined(h, r, rows);
    PlanRecorded(h, r, rows);
    OneDisposal(h, r, queue, Drafts(h, r, rows), PlanOf(h, r, rows).value.events, WinnerOf(h, r, rows), i);
    assert queue[i] in queue;
  }

  lemma QueueHold(h: Hashes, r: Round, rows: seq<Candidate>, i: nat)
    requires Targeted(rows) && PlanOf(h, r, rows).Some? && Admissible(rows)
    requires i < |VerdictOf(h, r, rows).held| + |VerdictOf(h, r, rows).lost|
    ensures i < |PlanOf(h, r, rows).value.events|
    ensures HoldAt(h, r, VerdictOf(h, r, rows), PlanOf(h, r, rows).value.events[i], i)
  {
    VerdictJudged(h, r, rows);
    QueueContents(h, r, rows);
    NotWinner(h, r, rows, VerdictOf(h, r, rows), i);
    QueueTold(h, r, rows, i);
    ToldHold(h, r, VerdictOf(h, r, rows), PlanOf(h, r, rows).value.events, i);
  }

  lemma NotWinner(h: Hashes, r: Round, rows: seq<Candidate>, v: Verdict, i: nat)
    requires Judged(h, r, rows, v) && Distinct(Listed(v)) && i < |v.held| + |v.lost|
    ensures v.winner != Some(Listed(v)[i]) && (MayWin(h, r, Listed(v)[i]) <==> |v.held| <= i)
  {
    var listed := Listed(v);
    if v.winner.Some? { assert listed[|listed| - 1] == v.winner.value && listed[i] != listed[|listed| - 1]; }
    if i < |v.held| {
      assert listed[i] == v.held[i];
    } else {
      assert listed[i] == v.lost[i - |v.held|];
    }
  }

  lemma CrownReason(h: Hashes, r: Round, rows: seq<Candidate>, w: Candidate)
    requires Targeted(rows) && PlanOf(h, r, rows).Some? && WinnerOf(h, r, rows) == Some(w)
    ensures 0 <= CrownAt(h, r, rows) < |PlanOf(h, r, rows).value.events|
    ensures PlanOf(h, r, rows).value.events[CrownAt(h, r, rows)].reason ==
      if FromAncestor(r, w) then "qualified_ancestor_win" else "qualified_win"
  {
    var n, e := CrownAt(h, r, rows), EligibleRows(h, r, rows);
    LineAt(HeldRows(h, r, rows), e, |HeldRows(h, r, rows)|);
    PlanLined(h, r, rows);
    PlanRecorded(h, r, rows);
    KeepElements(rows, IsEligible(h, r));
    assert Queue(h, r, rows)[n] == w;
    assert LinedAt(h, r, Queue(h, r, rows), Drafts(h, r, rows)[n], Some(w), n);
    if w.target in r.tips { BaselineMeaning(w, r.tips[w.target][|r.tips[w.target]| - 1].artifact); }
  }

  lemma CrownCarried(h: Hashes, r: Round, rows: seq<Candidate>, w: Candidate)
    requires CollisionFree(h) && Targeted(rows) && PlanOf(h, r, rows).Some? && WinnerOf(h, r, rows) == Some(w)
    requires w in rows && Qualified(w)
    ensures CrownedAt(h, r, w, PlanOf(h, r, rows).value, CrownAt(h, r, rows))
  {
    WinnerEvents(h, r, rows, w);
    PlanTransition(h, r, rows, w);
    AdoptedManifest(h, r, w);
    CrownReason(h, r, rows, w);
    PlanConstructible(h, r, rows);
  }

  lemma PlanPlaced(h: Hashes, r: Round, rows: seq<Candidate>)
    requires Targeted(rows) && PlanOf(h, r, rows).Some?
    ensures OnChain(h, r, PlanOf(h, r, rows).value)
  {
    var p := PlanOf(h, r, rows).value;
    PlanConstructible(h, r, rows);
    forall i | 0 <= i < |p.events| ensures Placed(h, r, p.events, i) { ChainedPlaced(h, r, p.events, i); }
  }

  lemma HoldsCarried(h: Hashes, r: Round, rows: seq<Candidate>)
    requires Targeted(rows) && PlanOf(h, r, rows).Some? && Admissible(rows)
    ensures HoldsEach(h, r, VerdictOf(h, r, rows), PlanOf(h, r, rows).value)
  {
    var v, p := VerdictOf(h, r, rows), PlanOf(h, r, rows).value;
    forall i | 0 <= i < |v.held| + |v.lost| ensures i < |p.events| && HoldAt(h, r, v, p.events[i], i) {
      QueueHold(h, r, rows, i);
    }
    if |v.held| + |v.lost| > 0 { QueueHold(h, r, rows, |v.held| + |v.lost| - 1); }
  }

  lemma NoneConcludes(h: Hashes, r: Round, rows: seq<Candidate>)
    requires Targeted(rows) && PlanOf(h, r, rows).Some? && WinnerOf(h, r, rows) == None
    ensures Concludes(h, r, VerdictOf(h, r, rows), PlanOf(h, r, rows).value)
  {
    PlanRecorded(h, r, rows);
  }

  lemma VerdictSize(h: Hashes, r: Round, rows: seq<Candidate>)
    requires WinnerOf(h, r, rows).Some?
    ensures CrownAt(h, r, rows) == |VerdictOf(h, r, rows).held| + |VerdictOf(h, r, rows).lost|
  {
    LineAt(HeldRows(h, r, rows), EligibleRows(h, r, rows), |HeldRows(h, r, rows)|);
  }

  lemma WinnerConcludes(h: Hashes, r: Round, v: Verdict, p: Plan, n: int)
    requires v.winner.Some? && CrownedAt(h, r, v.winner.value, p, n) && n == |v.held| + |v.lost|
    ensures Concludes(h, r, v, p)
  {
  }

  lemma PlanCarries(h: Hashes, r: Round, rows: seq<Candidate>)
    requires CollisionFree(h) && Targeted(rows) && PlanOf(h, r, rows).Some? && Admissible(rows)
    ensures Carries(h, r, VerdictOf(h, r, rows), PlanOf(h, r, rows).value)
  {
    PlanPlaced(h, r, rows);
    HoldsCarried(h, r, rows);
    if WinnerOf(h, r, rows).None? {
      NoneConcludes(h, r, rows);
    } else {
      var w := WinnerOf(h, r, rows).value;
      PlanTransition(h, r, rows, w);
      CrownCarried(h, r, rows, w);
      VerdictSize(h, r, rows);
      WinnerConcludes(h, r, VerdictOf(h, r, rows), PlanOf(h, r, rows).value, CrownAt(h, r, rows));
    }
  }

  // ----- when there is none

  ghost predicate Wins(h: Hashes, r: Round, rows: seq<Candidate>, w: Candidate) {
    w in rows && MayWin(h, r, w) && forall c :: c in rows && MayWin(h, r, c) ==> Outruns(w, c)
  }

  /** Two candidates share a digest or a reservation, or the winner's entry is in place, or its stack has no tree. */
  ghost predicate Refused(h: Hashes, r: Round, rows: seq<Candidate>)
    requires Targeted(rows)
  {
    || (exists i, j :: Repeats(h, rows, i, j))
    || exists w :: Wins(h, r, rows, w) &&
         (InPlace(r, w) || (r.resolver.None? && !Composed(r.manifest, w, w.proposed)))
  }

  /** Finalized order tells apart candidates with different reservations. */
  lemma NotLaterBoth(a: Candidate, b: Candidate)
    requires NotLater(a, b) && NotLater(b, a)
    ensures a.reservation == b.reservation
  {
    StrLeqMeaning(a.reservation, b.reservation);
    StrLeqMeaning(b.reservation, a.reservation);
    StrAntisymmetric(a.reservation, b.reservation);
  }

  lemma SameReservation(h: Hashes, rows: seq<Candidate>, a: Candidate, b: Candidate)
    requires (forall i, j :: !Repeats(h, rows, i, j)) && a in rows && b in rows && a.reservation == b.reservation
    ensures a == b
  {
    var i :| 0 <= i < |rows| && rows[i] == a;
    var j :| 0 <= j < |rows| && rows[j] == b;
    assert !Repeats(h, rows, i, j) && !Repeats(h, rows, j, i);
  }

  lemma OneWinner(h: Hashes, r: Round, rows: seq<Candidate>, v: Candidate, w: Candidate)
    requires (forall i, j :: !Repeats(h, rows, i, j)) && Wins(h, r, rows, v) && Wins(h, r, rows, w)
    ensures v == w
  {
    NotLaterBoth(v, w);
    SameReservation(h, rows, v, w);
  }

  lemma BestWins(h: Hashes, r: Round, rows: seq<Candidate>, w: Candidate)
    requires Best(h, r, rows, w)
    ensures Wins(h, r, rows, w)
  {
    ReasonMeaning(h, r, w);
    NotLaterSelf(w);
    forall c | c in rows && MayWin(h, r, c) ensures Outruns(w, c) {
      ReasonMeaning(h, r, c);
      if c != w && c.Speedup() == w.Speedup() { OrderMeaning(w, c); }
    }
  }

  lemma WinsIsBest(h: Hashes, r: Round, rows: seq<Candidate>, w: Candidate)
    requires forall i, j :: !Repeats(h, rows, i, j)
    ensures Wins(h, r, rows, w) <==> Best(h, r, rows, w)
  {
    if Best(h, r, rows, w) { BestWins(h, r, rows, w); }
    if Wins(h, r, rows, w) {
      UnduplicatedIff(h, rows);
      KeepElements(rows, IsEligible(h, r));
      ReasonMeaning(h, r, w);
      assert w in EligibleRows(h, r, rows);
      FirstIsBest(h, r, rows);
      BestWins(h, r, rows, First(EligibleRows(h, r, rows)));
      OneWinner(h, r, rows, w, First(EligibleRows(h, r, rows)));
    }
  }

  lemma RefusedMeaning(h: Hashes, r: Round, rows: seq<Candidate>)
    requires CollisionFree(h) && Targeted(rows) && Admissible(rows)
    ensures PlanOf(h, r, rows).None? <==> Refused(h, r, rows)
  {
    PlanRefusedIff(h, r, rows);
    if forall i, j :: !Repeats(h, rows, i, j) {
      forall w ensures Wins(h, r, rows, w) <==> Best(h, r, rows, w) { WinsIsBest(h, r, rows, w); }
    }
  }

  // ----- the description leaves no choice

  lemma AdoptsOnce(h: Hashes, r: Round, w: Candidate, s: Transition, t: Transition)
    requires Qualified(w) && Adopts(h, r, w, s) && Adopts(h, r, w, t)
    ensures s == t
  {
    ComposedIs(r.manifest, w, s.manifest);
    ComposedIs(r.manifest, w, t.manifest);
  }

  /** All but the place in the chain. */
  ghost predicate SameWords(d: Event, e: Event) {
    && d.kind == e.kind && d.candidate == e.candidate && d.subject == e.subject && d.target == e.target
    && d.from == e.from && d.to == e.to && d.reason == e.reason
  }

  lemma CrownsAlike(h: Hashes, r: Round, w: Candidate, t: Transition, a: seq<Event>, b: seq<Event>, i: nat)
    requires w.target in w.proposed.entries && CrownsWith(h, r, w, t, a) && CrownsWith(h, r, w, t, b) && i < |a|
    ensures |a| == |b| && SameWords(a[i], b[i])
  {
    if i == 0 { }
    else if i == |a| - 1 { }
    else if i == |a| - 2 { }
    else { assert i == 1; }
  }

  lemma {:induction false} SameChain(h: Hashes, r: Round, a: seq<Event>, b: seq<Event>, i: nat)
    requires |a| == |b| && i < |a| && forall k :: 0 <= k < |a| ==> SameWords(a[k], b[k])
    requires forall k :: 0 <= k < |a| ==> Placed(h, r, a, k) && Placed(h, r, b, k)
    ensures a[i] == b[i]
  {
    assert SameWords(a[i], b[i]) && Placed(h, r, a, i) && Placed(h, r, b, i);
    if i > 0 { SameChain(h, r, a, b, i - 1); }
  }

  lemma EndsAlike(h: Hashes, r: Round, w: Candidate, p: Plan, q: Plan, n: nat)
    requires Qualified(w) && CrownedAt(h, r, w, p, n) && CrownedAt(h, r, w, q, n)
    ensures p.transition == q.transition && p.after == q.after && p.winner == q.winner && |p.events| == |q.events|
    ensures forall k :: n <= k < |p.events| ==> SameWords(p.events[k], q.events[k])
  {
    AdoptsOnce(h, r, w, p.transition.value, q.transition.value);
    CrownsAlike(h, r, w, p.transition.value, p.events[n..], q.events[n..], 0);
    forall k | n <= k < |p.events| ensures SameWords(p.events[k], q.events[k]) {
      CrownsAlike(h, r, w, p.transition.value, p.events[n..], q.events[n..], k - n);
    }
  }

  lemma HoldsAlike(h: Hashes, r: Round, v: Verdict, p: Plan, q: Plan, k: nat)
    requires HoldsEach(h, r, v, p) && HoldsEach(h, r, v, q) && k < |v.held| + |v.lost|
    ensures SameWords(p.events[k], q.events[k])
  {
    assert HoldAt(h, r, v, p.events[k], k) && HoldAt(h, r, v, q.events[k], k);
  }

  lemma CarriesOnce(h: Hashes, r: Round, v: Verdict, p: Plan, q: Plan)
    requires Carries(h, r, v, p) && Carries(h, r, v, q) && (v.winner.Some? ==> Qualified(v.winner.value))
    ensures p == q
  {
    var n := |v.held| + |v.lost|;
    if v.winner.Some? { EndsAlike(h, r, v.winner.value, p, q, n); }
    forall k | 0 <= k < |p.events| ensures SameWords(p.events[k], q.events[k]) {
      if k < n { HoldsAlike(h, r, v, p, q, k); }
    }
    forall i | 0 <= i < |p.events| ensures p.events[i] == q.events[i] { SameChain(h, r, p.events, q.events, i); }
  }

  // ----- one verdict

  /** Candidates without repetition have one arrangement in finalized order. */
  lemma OrderedOnce(h: Hashes, rows: seq<Candidate>, a: seq<Candidate>, b: seq<Candidate>)
    requires forall i, j :: !Repeats(h, rows, i, j)
    requires InOrder(a) && InOrder(b) && multiset(a) == multiset(b) && forall c :: c in a ==> c in rows
    ensures a == b
  {
    forall x, y | OrderLeq(x, y) && OrderLeq(y, x) && x in a && y in a ensures x == y {
      OrderMeaning(x, y);
      OrderMeaning(y, x);
      NotLaterBoth(x, y);
      SameReservation(h, rows, x, y);
    }
    InOrderSorted(a);
    InOrderSorted(b);
    SortedUnique(OrderLeq, a, b);
  }

  lemma InOrderSorted(s: seq<Candidate>)
    requires InOrder(s)
    ensures Sorted(OrderLeq, s)
  {
    forall i, j | 0 <= i < j < |s| ensures OrderLeq(s[i], s[j]) {
      StrLeqMeaning(s[i].reservation, s[j].reservation);
    }
  }

  lemma JudgedWinner(h: Hashes, r: Round, rows: seq<Candidate>, v: Verdict)
    requires Judged(h, r, rows, v)
    ensures v.winner.Some? ==> Wins(h, r, rows, v.winner.value)
    ensures forall w :: Wins(h, r, rows, w) ==> v.winner.Some?
    ensures forall c :: c in rows <==> c in Listed(v)
  {
    SameElements(rows, Listed(v));
    if v.winner.Some? {
      NotLaterSelf(v.winner.value);
      assert v.winner.value in Listed(v);
    }
  }

  lemma ListedCount(v: Verdict, x: Candidate)
    ensures multiset(Listed(v))[x] ==
      multiset(v.held)[x] + multiset(v.lost)[x] + if v.winner == Some(x) then 1 else 0
  {
  }

  lemma JudgedCount(h: Hashes, r: Round, rows: seq<Candidate>, v: Verdict, x: Candidate)
    requires Judged(h, r, rows, v)
    ensures multiset(v.held)[x] == if MayWin(h, r, x) then 0 else multiset(rows)[x]
    ensures multiset(v.lost)[x] ==
      if MayWin(h, r, x) then multiset(rows)[x] - (if v.winner == Some(x) then 1 else 0) else 0
  {
    ListedCount(v, x);
    assert x in v.held <==> multiset(v.held)[x] > 0;
    assert x in v.lost <==> multiset(v.lost)[x] > 0;
  }

  lemma JudgedOnce(h: Hashes, r: Round, rows: seq<Candidate>, v: Verdict, u: Verdict)
    requires (forall i, j :: !Repeats(h, rows, i, j)) && Judged(h, r, rows, v) && Judged(h, r, rows, u)
    ensures v == u
  {
    JudgedWinner(h, r, rows, v);
    JudgedWinner(h, r, rows, u);
    if v.winner.Some? { OneWinner(h, r, rows, v.winner.value, u.winner.value); }
    forall x ensures multiset(v.held)[x] == multiset(u.held)[x] && multiset(v.lost)[x] == multiset(u.lost)[x] {
      JudgedCount(h, r, rows, v, x);
      JudgedCount(h, r, rows, u, x);
    }
    forall c | c in v.held || c in v.lost ensures c in rows { assert c in Listed(v); }
    OrderedOnce(h, rows, v.held, u.held);
    OrderedOnce(h, rows, v.lost, u.lost);
  }

  /** Planning raises exactly when refused, and otherwise returns the one plan of the description. */
  lemma PlanMeaning(h: Hashes, r: Round, rows: seq<Candidate>, p: Plan)
    requires CollisionFree(h) && Targeted(rows) && Admissible(rows)
    ensures PlanOf(h, r, rows) == Some(p) <==> !Refused(h, r, rows) && IsPlan(h, r, rows, p)
  {
    RefusedMeaning(h, r, rows);
    if !Refused(h, r, rows) {
      var v := VerdictOf(h, r, rows);
      VerdictJudged(h, r, rows);
      PlanCarries(h, r, rows);
      assert IsPlan(h, r, rows, PlanOf(h, r, rows).value);
      if IsPlan(h, r, rows, p) {
        var u :| Judged(h, r, rows, u) && Carries(h, r, u, p);
        JudgedOnce(h, r, rows, v, u);
        JudgedWinner(h, r, rows, v);
        CarriesOnce(h, r, v, p, PlanOf(h, r, rows).value);
      }
    }
  }
}
