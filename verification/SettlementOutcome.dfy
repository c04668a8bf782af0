/** What a settlement plan says, in the candidates' own fields (`cacheon/settlement.py`, `plan_settlement`). */
module SettlementOutcome {
  import opened Orders
  import opened Wrappers
  import opened Settlement
  import L = Lineage
  import NodeAddresses

  /** Finalized no later: by block, then event index, then subindex, then reservation digest. */
  ghost predicate NotLater(a: Candidate, b: Candidate) {
    a.block <= b.block && (a.block == b.block ==> NotLaterInBlock(a, b))
  }

  ghost predicate NotLaterInBlock(a: Candidate, b: Candidate) {
    && a.index <= b.index
    && (a.index == b.index ==>
          && a.subindex <= b.subindex
          && (a.subindex == b.subindex ==> Alphabetical(a.reservation, b.reservation)))
  }

  lemma OrderMeaning(a: Candidate, b: Candidate)
    requires OrderLeq(a, b)
    ensures NotLater(a, b)
  {
    StrLeqMeaning(a.reservation, b.reservation);
  }

  // ----- who may win

  /** The artifact the candidate was measured on, empty when its target had no entry. */
  ghost predicate MeasuredOn(c: Candidate, artifact: string) {
    if c.target in c.incumbent.entries then artifact == c.incumbent.entries[c.target].artifact else artifact == ""
  }

  ghost predicate OnPath(nodes: TargetLineage, artifact: string) {
    exists n :: n in nodes && n.parent == artifact
  }

  /** Measured on the tip, or faster than everything crowned since its baseline together. */
  ghost predicate BeatsPath(nodes: TargetLineage, artifact: string, speedup: real) {
    artifact == nodes[|nodes| - 1].artifact ||
    exists i, product :: L.LeavesAt(nodes, artifact, i) && L.Multiplied(nodes[i..], product) && speedup > product
  }

  /** A target with a lineage is contested on it; any other needs the current stack and tree. */
  ghost predicate MayWin(h: Hashes, r: Round, c: Candidate) {
    if c.target in r.tips then forall b :: MeasuredOn(c, b) ==> BeatsPath(r.tips[c.target], b, c.Speedup())
    else h.manifest(c.incumbent) == h.manifest(r.manifest) && c.incumbentTree == r.tree
  }

  /** Why a candidate that may not win is held: on the path but too slow, or off it. */
  ghost predicate HeldFor(r: Round, c: Candidate, reason: string) {
    if c.target in r.tips && (forall b :: MeasuredOn(c, b) ==> OnPath(r.tips[c.target], b))
    then reason == "lost_potential" else reason == "stale_incumbent"
  }

  lemma StartMeaning(nodes: TargetLineage, b: string)
    ensures L.Start(nodes, b) < |nodes| <==> OnPath(nodes, b)
    ensures forall i :: L.LeavesAt(nodes, b, i) <==> i == L.Start(nodes, b) < |nodes|
  {
    var i := L.Start(nodes, b);
    if i < |nodes| { assert nodes[i] in nodes; }
    if n :| n in nodes && n.parent == b {
      var j :| 0 <= j < |nodes| && nodes[j] == n;
      assert i <= j;
    }
  }

  lemma LineageMeaning(nodes: TargetLineage, b: string, speedup: real)
    ensures LineageReason(nodes, b, speedup) == "" <==> BeatsPath(nodes, b, speedup)
    ensures !BeatsPath(nodes, b, speedup) ==>
      LineageReason(nodes, b, speedup) == if OnPath(nodes, b) then "lost_potential" else "stale_incumbent"
  {
    StartMeaning(nodes, b);
    var i := L.Start(nodes, b);
    if i < |nodes| {
      forall product ensures L.Multiplied(nodes[i..], product) <==> product == L.Product(nodes[i..]) {
        L.ProductMeaning(nodes[i..], product);
      }
      assert L.LeavesAt(nodes, b, i) && L.Multiplied(nodes[i..], L.Product(nodes[i..]));
    }
  }

  lemma BaselineMeaning(c: Candidate, b: string)
    ensures MeasuredOn(c, b) <==> b == BaselineArtifact(c)
  {
  }

  /** The planner's verdict on one candidate, read off its fields. */
  lemma ReasonMeaning(h: Hashes, r: Round, c: Candidate)
    ensures Eligible(h, r, c) <==> MayWin(h, r, c)
    ensures !MayWin(h, r, c) ==> HeldFor(r, c, Reason(h, r, c))
  {
    forall b ensures MeasuredOn(c, b) <==> b == BaselineArtifact(c) { BaselineMeaning(c, b); }
    if c.target in r.tips { LineageMeaning(r.tips[c.target], BaselineArtifact(c), c.Speedup()); }
  }

  // ----- who wins

  /** A winner exists when some candidate may win; it is fastest, and the earliest finalized of the fastest. */
  lemma WinnerMeaning(h: Hashes, r: Round, rows: seq<Candidate>)
    requires Targeted(rows) && PlanOf(h, r, rows).Some?
    ensures WinnerOf(h, r, rows).None? <==> forall c :: c in rows ==> !MayWin(h, r, c)
    ensures WinnerOf(h, r, rows).Some? ==>
      var w := WinnerOf(h, r, rows).value;
      && w in rows && MayWin(h, r, w) && PlanOf(h, r, rows).value.winner == h.candidate(w)
      && forall c :: c in rows && MayWin(h, r, c) ==>
           c.Speedup() < w.Speedup() || (c.Speedup() == w.Speedup() && NotLater(w, c))
  {
    WinnerIsBest(h, r, rows);
    KeepElements(rows, IsEligible(h, r));
    forall c | c in rows ensures Eligible(h, r, c) <==> MayWin(h, r, c) { ReasonMeaning(h, r, c); }
    if WinnerOf(h, r, rows).Some? {
      var w := WinnerOf(h, r, rows).value;
      assert Best(h, r, rows, w);
      NotLaterSelf(w);
      forall c | c in rows && MayWin(h, r, c) && c.Speedup() == w.Speedup() ensures NotLater(w, c) {
        if c != w { OrderMeaning(w, c); }
      }
    }
  }

  lemma NotLaterSelf(c: Candidate)
    ensures NotLater(c, c)
  {
  }

  // ----- what each candidate is told

  /** Some concrete module of the model lies at or under a member of each. */
  ghost predicate ShareModule(a: Candidate, b: Candidate) {
    exists x, y, path :: x in a.members && y in b.members && NodeAddresses.Concrete(path) &&
      NodeAddresses.AtOrUnder(path, NodeAddresses.Split(x)) && NodeAddresses.AtOrUnder(path, NodeAddresses.Split(y))
  }

  /** The candidate constructor's check on members. */
  ghost predicate Addressed(c: Candidate) {
    forall m :: m in c.members ==> NodeAddresses.NodeAddress(m)
  }

  lemma ConflictMeaning(a: Candidate, b: Candidate)
    requires Addressed(a) && Addressed(b)
    ensures LostFor(a, b, LostReason(a, b))
  {
    forall x, y | x in a.members && y in b.members
      ensures NodeAddresses.Overlap(NodeAddresses.Split(x), NodeAddresses.Split(y)) <==>
        exists path :: NodeAddresses.Concrete(path) && NodeAddresses.AtOrUnder(path, NodeAddresses.Split(x)) &&
          NodeAddresses.AtOrUnder(path, NodeAddresses.Split(y))
    {
      NodeAddresses.OverlapSemantic(NodeAddresses.Split(x), NodeAddresses.Split(y));
    }
  }

  ghost predicate LostFor(c: Candidate, winner: Candidate, reason: string) {
    if ShareModule(c, winner) then reason == "conflict_lost" else reason == "incumbent_advanced"
  }

  ghost predicate Told(h: Hashes, r: Round, c: Candidate, winner: Option<Candidate>, e: Event) {
    && e.target == c.target && e.from == e.to == Arm(h.manifest(r.manifest), r.tree)
    && if winner == Some(c) then
         && e.kind == CROWN
         && (c.target in r.tips && !MeasuredOn(c, r.tips[c.target][|r.tips[c.target]| - 1].artifact)
             <==> e.reason == "qualified_ancestor_win")
         && (e.reason == "qualified_ancestor_win" || e.reason == "qualified_win")
       else
         && e.kind == HOLD && e.subject == c.delta
         && if !MayWin(h, r, c) then HeldFor(r, c, e.reason)
            else winner.Some? && LostFor(c, winner.value, e.reason)
  }

  /** The event at `i` alone disposes of the candidate, and says why. */
  ghost predicate ToldAt(h: Hashes, r: Round, events: seq<Event>, c: Candidate, winner: Option<Candidate>, i: nat) {
    OnlyDisposal(h, r, events, c, winner, i) && Told(h, r, c, winner, events[i])
  }

  lemma ToldBy(h: Hashes, r: Round, rows: seq<Candidate>, events: seq<Event>, c: Candidate, winner: Option<Candidate>,
               i: nat)
    requires OnlyDisposal(h, r, events, c, winner, i)
    requires Addressed(c) && (winner.Some? ==> Addressed(winner.value))
    requires winner.None? ==> !MayWin(h, r, c)
    requires winner == Some(c) ==> MayWin(h, r, c)
    ensures Told(h, r, c, winner, events[i])
  {
    ReasonMeaning(h, r, c);
    if c.target in r.tips { BaselineMeaning(c, r.tips[c.target][|r.tips[c.target]| - 1].artifact); }
    if winner.Some? { ConflictMeaning(c, winner.value); }
  }

  /** Every candidate has one HOLD or CROWN, which says why in terms of lineage, stack and modules. */
  lemma CandidateTold(h: Hashes, r: Round, rows: seq<Candidate>, c: Candidate)
    requires Targeted(rows) && PlanOf(h, r, rows).Some? && c in rows && (forall x :: x in rows ==> Addressed(x))
    ensures exists i :: ToldAt(h, r, PlanOf(h, r, rows).value.events, c, WinnerOf(h, r, rows), i)
  {
    var events, winner := PlanOf(h, r, rows).value.events, WinnerOf(h, r, rows);
    EveryCandidateDisposed(h, r, rows, c);
    var i :| OnlyDisposal(h, r, events, c, winner, i);
    WinnerMeaning(h, r, rows);
    ToldBy(h, r, rows, events, c, winner, i);
    assert ToldAt(h, r, events, c, winner, i);
  }

  // ----- the order of the events

  lemma QueueAt(h: Hashes, r: Round, rows: seq<Candidate>, i: nat)
    requires i < |Queue(h, r, rows)|
    ensures Eligible(h, r, Queue(h, r, rows)[i]) <==> |HeldRows(h, r, rows)| <= i
    ensures |HeldRows(h, r, rows)| <= i && WinnerOf(h, r, rows) != Some(Queue(h, r, rows)[i]) ==>
      var e := EligibleRows(h, r, rows);
      e != [] && i - |HeldRows(h, r, rows)| < |Others(e, First(e))| &&
      Queue(h, r, rows)[i] == Others(e, First(e))[i - |HeldRows(h, r, rows)|]
  {
    var held, e := HeldRows(h, r, rows), EligibleRows(h, r, rows);
    KeepElements(rows, IsEligible(h, r));
    if i < |held| {
      assert Queue(h, r, rows)[i] == held[i];
      HeldElements(h, r, rows, held[i]);
    } else {
      LineAt(held, e, i);
      if i - |held| < |Others(e, First(e))| { OtherElements(e, First(e), Others(e, First(e))[i - |held|]); }
    }
  }

  lemma DisposedAt(h: Hashes, r: Round, rows: seq<Candidate>, c: Candidate, i: nat)
    requires Targeted(rows) && PlanOf(h, r, rows).Some? && c in rows
    requires i < |PlanOf(h, r, rows).value.events| && Disposes(h, PlanOf(h, r, rows).value.events[i], c)
    ensures i < |Queue(h, r, rows)| && Queue(h, r, rows)[i] == c
  {
    var queue := Queue(h, r, rows);
    QueueContents(h, r, rows);
    DigestsApart(h, rows);
    PlanLined(h, r, rows);
    PlanRecorded(h, r, rows);
    var k: nat :| k < |queue| && queue[k] == c;
    OneDisposal(h, r, queue, Drafts(h, r, rows), PlanOf(h, r, rows).value.events, WinnerOf(h, r, rows), k);
  }

  ghost predicate InOrder(s: seq<Candidate>) {
    forall i, j :: 0 <= i < j < |s| ==> NotLater(s[i], s[j])
  }

  lemma SortInOrder(s: seq<Candidate>)
    ensures InOrder(Sort(OrderLeq, s))
  {
    var t := Sort(OrderLeq, s);
    OrderPreorder();
    SortSorted(OrderLeq, s);
    forall i, j | 0 <= i < j < |t| ensures NotLater(t[i], t[j]) { OrderMeaning(t[i], t[j]); }
  }

  /** Stale HOLDs come first, then the losers', each in finalized order, then the CROWN. */
  lemma EventsInOrder(h: Hashes, r: Round, rows: seq<Candidate>, a: Candidate, b: Candidate, i: nat, j: nat)
    requires Targeted(rows) && PlanOf(h, r, rows).Some? && a in rows && b in rows
    requires i < j < |PlanOf(h, r, rows).value.events|
    requires Disposes(h, PlanOf(h, r, rows).value.events[i], a) && Disposes(h, PlanOf(h, r, rows).value.events[j], b)
    ensures WinnerOf(h, r, rows) != Some(a) && (MayWin(h, r, a) ==> MayWin(h, r, b))
    ensures (MayWin(h, r, a) <==> MayWin(h, r, b)) && WinnerOf(h, r, rows) != Some(b) ==> NotLater(a, b)
  {
    DisposedAt(h, r, rows, a, i);
    DisposedAt(h, r, rows, b, j);
    QueueAt(h, r, rows, i);
    QueueAt(h, r, rows, j);
    ReasonMeaning(h, r, a);
    ReasonMeaning(h, r, b);
    WinnerLast(h, r, rows, i);
    if (MayWin(h, r, a) <==> MayWin(h, r, b)) && WinnerOf(h, r, rows) != Some(b) {
      LinedUp(h, r, rows, i, j);
    }
  }

  lemma WinnerLast(h: Hashes, r: Round, rows: seq<Candidate>, i: nat)
    requires Unduplicated(h, rows) && i + 1 < |Queue(h, r, rows)|
    ensures WinnerOf(h, r, rows) != Some(Queue(h, r, rows)[i])
  {
    QueueContents(h, r, rows);
    var held, e, queue := HeldRows(h, r, rows), EligibleRows(h, r, rows), Queue(h, r, rows);
    if e != [] {
      LineAt(held, e, |held|);
      LineAt(held, e, |queue| - 1);
      assert queue[|queue| - 1] == First(e);
    }
  }

  lemma LineInOrder(held: seq<Candidate>, e: seq<Candidate>, i: nat, j: nat)
    requires i < j < |Line(held, e)| && InOrder(held) && (e != [] ==> InOrder(Others(e, First(e))))
    requires i < |held| <==> j < |held|
    requires |held| <= j ==> e != [] && j - |held| < |Others(e, First(e))|
    ensures NotLater(Line(held, e)[i], Line(held, e)[j])
  {
    if |held| <= j {
      LineAt(held, e, i);
      LineAt(held, e, j);
    } else {
      assert Line(held, e)[i] == held[i] && Line(held, e)[j] == held[j];
    }
  }

  lemma LinedUp(h: Hashes, r: Round, rows: seq<Candidate>, i: nat, j: nat)
    requires i < j < |Queue(h, r, rows)|
    requires Eligible(h, r, Queue(h, r, rows)[i]) <==> Eligible(h, r, Queue(h, r, rows)[j])
    requires WinnerOf(h, r, rows) != Some(Queue(h, r, rows)[i]) && WinnerOf(h, r, rows) != Some(Queue(h, r, rows)[j])
    ensures NotLater(Queue(h, r, rows)[i], Queue(h, r, rows)[j])
  {
    QueueAt(h, r, rows, i);
    QueueAt(h, r, rows, j);
    var held, e := HeldRows(h, r, rows), EligibleRows(h, r, rows);
    SortInOrder(Keep(rows, IsHeld(h, r)));
    if e != [] { SortInOrder(Keep(e, IsOther(First(e)))); }
    LineInOrder(held, e, i, j);
  }
}
