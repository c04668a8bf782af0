/** Settlement planning over one frozen incumbent (`cacheon/settlement.py`, `plan_settlement`). */
module Settlement {
  import opened Orders
  import opened Wrappers
  import L = Lineage
  import NodeAddresses

  datatype Ref = Ref(target: string, spec: string, artifact: string, attribution: string, delta: string)

  /** `base` stands for the runtime, engine, arena and catalog identities that settlement never changes. */
  datatype Manifest = Manifest(base: string, entries: map<string, Ref>)

  datatype Arm = Arm(stack: string, tree: string)

  datatype Candidate = Candidate(
    reservation: string, block: nat, index: nat, subindex: nat, hotkey: string, target: string, members: seq<string>,
    delta: string, evidence: string, primarySpeed: real, reproducedSpeed: Option<real>,
    incumbent: Manifest, incumbentTree: string, proposed: Manifest, proposedTree: string)
  {
    /** The lower of the retained runs. */
    function Speedup(): (s: real)
      ensures s <= primarySpeed && (reproducedSpeed.Some? ==> s <= reproducedSpeed.value)
      ensures s == primarySpeed || (reproducedSpeed.Some? && s == reproducedSpeed.value)
    {
      if reproducedSpeed.Some? && reproducedSpeed.value < primarySpeed then reproducedSpeed.value else primarySpeed
    }
  }

  datatype Kind = HOLD | CROWN | RETIREMENT | ADOPTION | STACK_TRANSITION

  datatype Event = Event(
    kind: Kind, sequence: nat, previous: string, candidate: string, subject: string, target: string,
    from: Arm, to: Arm, reason: string)

  /** Content digests, one per record type. */
  datatype Hashes = Hashes(
    ref: Ref -> string, manifest: Manifest -> string, candidate: Candidate -> string, event: Event -> string)

  ghost predicate SameDigest<T>(f: T -> string, a: T, b: T) {
    f(a) == f(b)
  }

  /** Equal digests are equal records, and no event has the empty digest. */
  ghost predicate CollisionFree(h: Hashes) {
    && (forall a, b :: SameDigest(h.manifest, a, b) ==> a == b)
    && (forall a, b :: SameDigest(h.event, a, b) ==> a == b)
    && forall e :: h.event(e) != ""
  }

  ghost predicate KeyedManifest(m: Manifest) {
    forall t :: t in m.entries ==> m.entries[t].target == t && m.entries[t].artifact != ""
  }

  /** What the qualification constructor guarantees. */
  ghost predicate Qualified(c: Candidate) {
    && c.Speedup() > 1.0 && KeyedManifest(c.incumbent) && KeyedManifest(c.proposed)
    && c.target in c.proposed.entries && c.proposed.entries[c.target].delta == c.delta
  }

  datatype Transition = Transition(candidate: string, before: Arm, after: Arm, manifest: Manifest)
  datatype Plan = Plan(before: Arm, after: Arm, winner: string, events: seq<Event>, transition: Option<Transition>)

  type TargetLineage = nodes: seq<L.Node> | nodes != [] witness [L.Node("", "", 1.0, "")]

  /** One settlement call: the current stack, the journal head, the lineages and the tree resolver. */
  datatype Round = Round(
    manifest: Manifest, tree: string, sequence: nat, previous: string, tips: map<string, TargetLineage>,
    resolver: Option<Manifest -> string>)

  function Current(h: Hashes, r: Round): Arm {
    Arm(h.manifest(r.manifest), r.tree)
  }

  // ----- who is held, and why

  function BaselineArtifact(c: Candidate): string {
    if c.target in c.incumbent.entries then c.incumbent.entries[c.target].artifact else ""
  }

  /** `_lineage_hold_reason` for a target that has a lineage. */
  function LineageReason(nodes: TargetLineage, baseline: string, speedup: real): string {
    match L.ThresholdOf(nodes, baseline)
    case AtTip => ""
    case NotInLineage => "stale_incumbent"
    case Beat(product, _) => if speedup > product then "" else "lost_potential"
  }

  /** Why a candidate cannot win; empty when it may. */
  function Reason(h: Hashes, r: Round, c: Candidate): string {
    if c.target in r.tips then LineageReason(r.tips[c.target], BaselineArtifact(c), c.Speedup())
    else if Arm(h.manifest(c.incumbent), c.incumbentTree) != Current(h, r) then "stale_incumbent" else ""
  }

  predicate Eligible(h: Hashes, r: Round, c: Candidate) {
    Reason(h, r, c) == ""
  }

  function IsEligible(h: Hashes, r: Round): Candidate -> bool { c => Eligible(h, r, c) }
  function IsHeld(h: Hashes, r: Round): Candidate -> bool { c => !Eligible(h, r, c) }
  function IsOther(winner: Candidate): Candidate -> bool { c => c != winner }

  /** `finalized_order` */
  predicate OrderLeq(a: Candidate, b: Candidate) {
    a.block < b.block || (a.block == b.block && (a.index < b.index || (a.index == b.index &&
      (a.subindex < b.subindex || (a.subindex == b.subindex && StrLeq(a.reservation, b.reservation))))))
  }

  /** `(-speedup, finalized_order)` */
  predicate WinnerLeq(a: Candidate, b: Candidate) {
    a.Speedup() > b.Speedup() || (a.Speedup() == b.Speedup() && OrderLeq(a, b))
  }

  function EligibleRows(h: Hashes, r: Round, rows: seq<Candidate>): seq<Candidate> {
    Keep(rows, IsEligible(h, r))
  }

  function HeldRows(h: Hashes, r: Round, rows: seq<Candidate>): seq<Candidate> {
    Sort(OrderLeq, Keep(rows, IsHeld(h, r)))
  }

  function Others(eligible: seq<Candidate>, winner: Candidate): seq<Candidate> {
    Sort(OrderLeq, Keep(eligible, IsOther(winner)))
  }

  // ----- the journal

  datatype Draft = Draft(kind: Kind, candidate: Candidate, subject: string, target: string, to: Arm, reason: string)

  function EventOf(h: Hashes, d: Draft, from: Arm, sequence: nat, previous: string): Event {
    Event(d.kind, sequence, previous, h.candidate(d.candidate), d.subject, d.target, from, d.to, d.reason)
  }

  function Head(h: Hashes, events: seq<Event>, previous: string): string {
    if events == [] then previous else h.event(events[|events| - 1])
  }

  /** The drafts written one after another from a journal head. */
  function Written(h: Hashes, drafts: seq<Draft>, from: Arm, sequence: nat, previous: string): seq<Event> {
    if drafts == [] then []
    else
      var n := |drafts| - 1;
      var before := Written(h, drafts[..n], from, sequence, previous);
      before + [EventOf(h, drafts[n], from, sequence + n, Head(h, before, previous))]
  }

  /** A contiguous hash chain from a given head. */
  ghost predicate Chained(h: Hashes, events: seq<Event>, sequence: nat, previous: string) {
    forall i :: 0 <= i < |events| ==>
      events[i].sequence == sequence + i && events[i].previous == Head(h, events[..i], previous)
  }

  ghost predicate Tells(e: Event, kind: Kind, subject: string, target: string, from: Arm, to: Arm) {
    e.kind == kind && e.subject == subject && e.target == target && e.from == from && e.to == to
  }

  ghost predicate Records(h: Hashes, e: Event, d: Draft, from: Arm) {
    e.candidate == h.candidate(d.candidate) && e.reason == d.reason && Tells(e, d.kind, d.subject, d.target, from, d.to)
  }

  lemma ChainedSnoc(h: Hashes, a: seq<Event>, e: Event, sequence: nat, previous: string)
    requires Chained(h, a, sequence, previous) && e.sequence == sequence + |a| && e.previous == Head(h, a, previous)
    ensures Chained(h, a + [e], sequence, previous)
  {
    var b := a + [e];
    forall i | 0 <= i < |b| ensures b[i].sequence == sequence + i && b[i].previous == Head(h, b[..i], previous) {
      assert b[..i] == a[..i];
    }
  }

  lemma {:induction false} WrittenChained(h: Hashes, drafts: seq<Draft>, from: Arm, sequence: nat, previous: string)
    ensures |Written(h, drafts, from, sequence, previous)| == |drafts|
    ensures Chained(h, Written(h, drafts, from, sequence, previous), sequence, previous)
  {
    if drafts != [] {
      var n := |drafts| - 1;
      WrittenChained(h, drafts[..n], from, sequence, previous);
      var before := Written(h, drafts[..n], from, sequence, previous);
      ChainedSnoc(h, before, EventOf(h, drafts[n], from, sequence + n, Head(h, before, previous)), sequence, previous);
    }
  }

  lemma {:induction false} WrittenRecords(h: Hashes, drafts: seq<Draft>, from: Arm, sequence: nat, previous: string)
    ensures |Written(h, drafts, from, sequence, previous)| == |drafts|
    ensures forall i :: 0 <= i < |drafts| ==>
      Records(h, Written(h, drafts, from, sequence, previous)[i], drafts[i], from)
  {
    if drafts != [] {
      WrittenRecords(h, drafts[..|drafts| - 1], from, sequence, previous);
    }
  }

  class Journal {
    var sequence: nat
    var previous: string
    var events: seq<Event>
    const from: Arm
    const h: Hashes
    ghost var drafts: seq<Draft>
    ghost const sequence0: nat
    ghost const previous0: string

    ghost predicate Valid()
      reads this
    {
      && events == Written(h, drafts, from, sequence0, previous0)
      && sequence == sequence0 + |events| && previous == Head(h, events, previous0)
      && |events| == |drafts|
    }

    constructor (h: Hashes, from: Arm, sequence: nat, previous: string)
      ensures Valid() && drafts == [] && this.h == h && this.from == from && sequence0 == sequence &&
        previous0 == previous
    {
      this.h, this.from, this.sequence0, this.previous0 := h, from, sequence, previous;
      this.sequence, this.previous, this.events, this.drafts := sequence, previous, [], [];
    }

    method Add(d: Draft)
      requires Valid()
      modifies this
      ensures Valid() && drafts == old(drafts) + [d]
    {
      var event := EventOf(h, d, from, sequence, previous);
      drafts := drafts + [d];
      assert drafts[..|drafts| - 1] == old(drafts);
      events := events + [event];
      previous := h.event(event);
      sequence := sequence + 1;
    }
  }

  // ----- the plan

  function HoldDraft(c: Candidate, from: Arm, reason: string): Draft {
    Draft(HOLD, c, c.delta, c.target, from, reason)
  }

  function StaleDrafts(h: Hashes, r: Round, held: seq<Candidate>): seq<Draft> {
    seq(|held|, i requires 0 <= i < |held| => HoldDraft(held[i], Current(h, r), Reason(h, r, held[i])))
  }

  function LostReason(c: Candidate, winner: Candidate): string {
    if NodeAddresses.MembersOverlap(c.members, winner.members) then "conflict_lost" else "incumbent_advanced"
  }

  function LostDrafts(others: seq<Candidate>, winner: Candidate, from: Arm): seq<Draft> {
    seq(|others|, i requires 0 <= i < |others| => HoldDraft(others[i], from, LostReason(others[i], winner)))
  }

  function Replacement(winner: Candidate): Ref
    requires winner.target in winner.proposed.entries
  {
    winner.proposed.entries[winner.target]
  }

  /** `with_contribution`: every other target keeps its current entry. */
  function WithContribution(m: Manifest, ref: Ref): Manifest {
    m.(entries := m.entries[ref.target := ref])
  }

  /** The adopted manifest and its arm, or nothing when the source raises. */
  function Adopt(h: Hashes, r: Round, winner: Candidate): Option<(Manifest, Arm)>
    requires winner.target in winner.proposed.entries
  {
    var adopted := WithContribution(r.manifest, Replacement(winner));
    if h.manifest(adopted) == h.manifest(r.manifest) then None
    else if h.manifest(adopted) == h.manifest(winner.proposed)
    then Some((winner.proposed, Arm(h.manifest(winner.proposed), winner.proposedTree)))
    else if r.resolver.None? then None
    else Some((adopted, Arm(h.manifest(adopted), r.resolver.value(adopted))))
  }

  function CrownDrafts(h: Hashes, r: Round, winner: Candidate): seq<Draft>
    requires winner.target in winner.proposed.entries
  {
    var now, prior := Current(h, r), r.manifest.entries;
    var ancestor := winner.target in r.tips && BaselineArtifact(winner) != L.Tip(r.tips[winner.target]);
    var reason := if ancestor then "qualified_ancestor_win" else "qualified_win";
    [Draft(CROWN, winner, h.ref(Replacement(winner)), winner.target, now, reason)]
    + if winner.target in prior
      then [Draft(RETIREMENT, winner, h.ref(prior[winner.target]), prior[winner.target].target, now, "superseded")]
      else []
  }

  function AdoptionDrafts(h: Hashes, winner: Candidate, manifest: Manifest, after: Arm): seq<Draft>
    requires winner.target in winner.proposed.entries
  {
    [Draft(ADOPTION, winner, h.ref(Replacement(winner)), winner.target, after, "adopted"),
     Draft(STACK_TRANSITION, winner, h.manifest(manifest), winner.target, after, "incumbent_updated")]
  }

  function WinnerDrafts(h: Hashes, r: Round, winner: Candidate, manifest: Manifest, after: Arm): seq<Draft>
    requires winner.target in winner.proposed.entries
  {
    CrownDrafts(h, r, winner) + AdoptionDrafts(h, winner, manifest, after)
  }

  /** Every candidate manifest holds an entry for its target. */
  predicate Targeted(rows: seq<Candidate>) {
    forall c :: c in rows ==> c.target in c.proposed.entries
  }

  function Digests(h: Hashes, rows: seq<Candidate>): set<string> { set c | c in rows :: h.candidate(c) }

  function Reservations(rows: seq<Candidate>): set<string> { set c | c in rows :: c.reservation }

  predicate Unduplicated(h: Hashes, rows: seq<Candidate>) {
    |Digests(h, rows)| == |rows| && |Reservations(rows)| == |rows|
  }

  /** The plan once the held candidates are drafted and some candidate is eligible. */
  function CrownPlan(h: Hashes, r: Round, stale: seq<Draft>, eligible: seq<Candidate>): Option<Plan>
    requires Targeted(eligible) && eligible != []
  {
    var now, winner := Current(h, r), First(eligible);
    var adopted := Adopt(h, r, winner);
    if adopted.None? then None
    else
      var (manifest, after) := adopted.value;
      var drafts := stale + LostDrafts(Others(eligible, winner), winner, now) +
        WinnerDrafts(h, r, winner, manifest, after);
      Some(Plan(now, after, h.candidate(winner), Written(h, drafts, now, r.sequence, r.previous),
                Some(Transition(h.candidate(winner), now, after, manifest))))
  }

  /** The plan for a set of qualified candidates, or nothing when the source raises. */
  function PlanOf(h: Hashes, r: Round, rows: seq<Candidate>): Option<Plan>
    requires Targeted(rows)
  {
    if !Unduplicated(h, rows) then None
    else
      KeepElements(rows, IsEligible(h, r));
      var now := Current(h, r);
      var stale := StaleDrafts(h, r, HeldRows(h, r, rows));
      var eligible := EligibleRows(h, r, rows);
      if eligible == [] then Some(Plan(now, now, "", Written(h, stale, now, r.sequence, r.previous), None))
      else CrownPlan(h, r, stale, eligible)
  }

  function First(eligible: seq<Candidate>): (w: Candidate)
    requires eligible != []
    ensures w in eligible
  {
    SortContents(WinnerLeq, eligible);
    var sorted := Sort(WinnerLeq, eligible);
    assert sorted[0] in multiset(sorted);
    sorted[0]
  }

  // ----- orders

  lemma OrderPreorder()
    ensures TotalPreorder(OrderLeq)
  {
    forall a, b ensures OrderLeq(a, b) || OrderLeq(b, a) { StrTotal(a.reservation, b.reservation); }
    forall a, b, c | OrderLeq(a, b) && OrderLeq(b, c) ensures OrderLeq(a, c) {
      if StrLeq(a.reservation, b.reservation) && StrLeq(b.reservation, c.reservation) {
        StrTransitive(a.reservation, b.reservation, c.reservation);
      }
    }
  }

  lemma WinnerPreorder()
    ensures TotalPreorder(WinnerLeq)
  {
    OrderPreorder();
  }

  lemma Distinguished(h: Hashes, rows: seq<Candidate>)
    requires Unduplicated(h, rows)
    ensures KeysDistinguish(OrderLeq, rows) && KeysDistinguish(WinnerLeq, rows)
  {
    var key := (c: Candidate) => c.reservation;
    assert Reservations(rows) == Image(rows, key);
    forall a: Candidate, b: Candidate | OrderLeq(a, b) && OrderLeq(b, a) ensures key(a) == key(b) {
      StrAntisymmetric(a.reservation, b.reservation);
    }
    KeyedDistinguish(OrderLeq, rows, key);
    KeyedDistinguish(WinnerLeq, rows, key);
  }

  /** Distinct rows have distinct digests. */
  lemma DigestsApart(h: Hashes, rows: seq<Candidate>)
    requires Unduplicated(h, rows)
    ensures Distinct(rows)
    ensures forall a, b :: a in rows && b in rows && h.candidate(a) == h.candidate(b) ==> a == b
  {
    assert Digests(h, rows) == Image(rows, h.candidate);
    forall i, j | 0 <= i < j < |rows| ensures h.candidate(rows[i]) != h.candidate(rows[j]) {
      KeysDistinct(rows, h.candidate, i, j);
    }
  }

  // ----- filtering

  lemma {:induction false} KeepCount(s: seq<Candidate>, f: Candidate -> bool, x: Candidate)
    ensures multiset(Keep(s, f))[x] == if f(x) then multiset(s)[x] else 0
  {
    if s != [] {
      var n := |s| - 1;
      KeepCount(s[..n], f, x);
      assert s == s[..n] + [s[n]];
    }
  }

  lemma KeepPermutation(s: seq<Candidate>, t: seq<Candidate>, f: Candidate -> bool)
    requires multiset(s) == multiset(t)
    ensures multiset(Keep(s, f)) == multiset(Keep(t, f))
  {
    forall x ensures multiset(Keep(s, f))[x] == multiset(Keep(t, f))[x] {
      KeepCount(s, f, x);
      KeepCount(t, f, x);
    }
  }

  lemma SubKeys(leq: (Candidate, Candidate) -> bool, s: seq<Candidate>, f: Candidate -> bool)
    requires KeysDistinguish(leq, s)
    ensures KeysDistinguish(leq, Keep(s, f))
  {
    KeepElements(s, f);
  }

  lemma SortKeepPermutation(
    leq: (Candidate, Candidate) -> bool, s: seq<Candidate>, t: seq<Candidate>, f: Candidate -> bool)
    requires TotalPreorder(leq) && KeysDistinguish(leq, s) && multiset(s) == multiset(t)
    ensures Sort(leq, Keep(s, f)) == Sort(leq, Keep(t, f))
  {
    SubKeys(leq, s, f);
    KeepPermutation(s, t, f);
    SortPermutation(leq, Keep(s, f), Keep(t, f));
  }

  // ----- the order candidates arrive in does not matter

  lemma UnduplicatedPermutation(h: Hashes, s: seq<Candidate>, t: seq<Candidate>)
    requires multiset(s) == multiset(t)
    ensures Unduplicated(h, s) == Unduplicated(h, t)
  {
    SameElements(s, t);
    assert Digests(h, s) == Digests(h, t) && Reservations(s) == Reservations(t);
  }

  lemma EligiblePermutation(h: Hashes, r: Round, s: seq<Candidate>, t: seq<Candidate>)
    requires multiset(s) == multiset(t) && Unduplicated(h, s)
    ensures HeldRows(h, r, s) == HeldRows(h, r, t)
    ensures multiset(EligibleRows(h, r, s)) == multiset(EligibleRows(h, r, t))
    ensures EligibleRows(h, r, s) != [] ==>
      EligibleRows(h, r, t) != [] && First(EligibleRows(h, r, s)) == First(EligibleRows(h, r, t))
    ensures EligibleRows(h, r, s) == [] ==> EligibleRows(h, r, t) == []
  {
    Distinguished(h, s);
    OrderPreorder();
    WinnerPreorder();
    SortKeepPermutation(OrderLeq, s, t, IsHeld(h, r));
    SortKeepPermutation(WinnerLeq, s, t, IsEligible(h, r));
    KeepPermutation(s, t, IsEligible(h, r));
    SameElements(EligibleRows(h, r, s), EligibleRows(h, r, t));
  }

  /** The plan is a function of the set of candidates. */
  lemma PlanPermutation(h: Hashes, r: Round, s: seq<Candidate>, t: seq<Candidate>)
    requires Targeted(s) && Targeted(t) && multiset(s) == multiset(t)
    ensures PlanOf(h, r, s) == PlanOf(h, r, t)
  {
    UnduplicatedPermutation(h, s, t);
    if Unduplicated(h, s) {
      EligiblePermutation(h, r, s, t);
      var e, f := EligibleRows(h, r, s), EligibleRows(h, r, t);
      if e != [] {
        Distinguished(h, s);
        OrderPreorder();
        SubKeys(OrderLeq, s, IsEligible(h, r));
        SortKeepPermutation(OrderLeq, e, f, IsOther(First(e)));
        assert Others(e, First(e)) == Others(f, First(f));
      }
    }
  }

  // ----- the winner

  /** Faster than every other eligible candidate, or as fast and finalized earlier. */
  ghost predicate Best(h: Hashes, r: Round, rows: seq<Candidate>, w: Candidate) {
    && w in rows && Eligible(h, r, w)
    && forall c :: c in rows && Eligible(h, r, c) && c != w ==>
         c.Speedup() < w.Speedup() || (c.Speedup() == w.Speedup() && OrderLeq(w, c) && !OrderLeq(c, w))
  }

  lemma FirstIsLeast(eligible: seq<Candidate>, c: Candidate)
    requires eligible != [] && c in eligible
    ensures WinnerLeq(First(eligible), c)
  {
    var sorted := Sort(WinnerLeq, eligible);
    SortContents(WinnerLeq, eligible);
    WinnerPreorder();
    SortSorted(WinnerLeq, eligible);
    assert c in multiset(sorted);
    var i :| 0 <= i < |sorted| && sorted[i] == c;
  }

  lemma FirstIsBest(h: Hashes, r: Round, rows: seq<Candidate>)
    requires Unduplicated(h, rows) && EligibleRows(h, r, rows) != []
    ensures Best(h, r, rows, First(EligibleRows(h, r, rows)))
  {
    var e := EligibleRows(h, r, rows);
    KeepElements(rows, IsEligible(h, r));
    Distinguished(h, rows);
    forall c | c in rows && Eligible(h, r, c) && c != First(e)
      ensures WinnerLeq(First(e), c) && !WinnerLeq(c, First(e))
    {
      FirstIsLeast(e, c);
    }
  }

  lemma BestUnique(h: Hashes, r: Round, rows: seq<Candidate>, v: Candidate, w: Candidate)
    requires Best(h, r, rows, v) && Best(h, r, rows, w)
    ensures v == w
  {
  }

  // ----- every candidate is disposed exactly once

  ghost predicate Disposes(h: Hashes, e: Event, c: Candidate) {
    e.candidate == h.candidate(c) && (e.kind == HOLD || e.kind == CROWN)
  }

  /** The held candidates, the losers and the winner, in the order of their HOLD or CROWN. */
  function Line(held: seq<Candidate>, eligible: seq<Candidate>): seq<Candidate> {
    if eligible == [] then held else held + Others(eligible, First(eligible)) + [First(eligible)]
  }

  function Queue(h: Hashes, r: Round, rows: seq<Candidate>): seq<Candidate> {
    Line(HeldRows(h, r, rows), EligibleRows(h, r, rows))
  }

  lemma LineCount(held: seq<Candidate>, eligible: seq<Candidate>, x: Candidate)
    requires forall c :: c in eligible ==> multiset(eligible)[c] == 1
    ensures multiset(Line(held, eligible))[x] == multiset(held)[x] + multiset(eligible)[x]
  {
    if eligible != [] {
      var w := First(eligible);
      var others := Keep(eligible, IsOther(w));
      SortContents(OrderLeq, others);
      KeepCount(eligible, IsOther(w), x);
      assert multiset(Line(held, eligible)) == multiset(held) + multiset(others) + multiset{w};
    }
  }

  lemma KeepSplit(h: Hashes, r: Round, rows: seq<Candidate>, x: Candidate)
    ensures multiset(HeldRows(h, r, rows))[x] + multiset(EligibleRows(h, r, rows))[x] == multiset(rows)[x]
  {
    SortContents(OrderLeq, Keep(rows, IsHeld(h, r)));
    KeepCount(rows, IsHeld(h, r), x);
    KeepCount(rows, IsEligible(h, r), x);
  }

  lemma EligibleOnce(h: Hashes, r: Round, rows: seq<Candidate>, c: Candidate)
    requires Distinct(rows) && c in EligibleRows(h, r, rows)
    ensures multiset(EligibleRows(h, r, rows))[c] == 1
  {
    KeepCount(rows, IsEligible(h, r), c);
    CountAtMostOnce(rows, c);
    assert c in multiset(EligibleRows(h, r, rows));
  }

  lemma QueueIsRows(h: Hashes, r: Round, rows: seq<Candidate>)
    requires Distinct(rows)
    ensures multiset(Queue(h, r, rows)) == multiset(rows)
  {
    var held, e := HeldRows(h, r, rows), EligibleRows(h, r, rows);
    forall c | c in e ensures multiset(e)[c] == 1 { EligibleOnce(h, r, rows, c); }
    forall x ensures multiset(Line(held, e))[x] == multiset(rows)[x] {
      LineCount(held, e, x);
      KeepSplit(h, r, rows, x);
    }
  }

  lemma QueueContents(h: Hashes, r: Round, rows: seq<Candidate>)
    requires Unduplicated(h, rows)
    ensures Distinct(Queue(h, r, rows)) && forall c :: c in rows <==> c in Queue(h, r, rows)
  {
    DigestsApart(h, rows);
    QueueIsRows(h, r, rows);
    DistinctPermutation(rows, Queue(h, r, rows));
    SameElements(rows, Queue(h, r, rows));
  }

  /** The drafts of a plan that is not refused. */
  function Drafts(h: Hashes, r: Round, rows: seq<Candidate>): seq<Draft>
    requires Targeted(rows) && PlanOf(h, r, rows).Some?
  {
    KeepElements(rows, IsEligible(h, r));
    var now := Current(h, r);
    var stale, eligible := StaleDrafts(h, r, HeldRows(h, r, rows)), EligibleRows(h, r, rows);
    if eligible == [] then stale
    else
      var w := First(eligible);
      var (manifest, after) := Adopt(h, r, w).value;
      stale + LostDrafts(Others(eligible, w), w, now) + WinnerDrafts(h, r, w, manifest, after)
  }

  /** What the disposing event of a candidate says. */
  function DisposalReason(h: Hashes, r: Round, c: Candidate, winner: Option<Candidate>): string {
    if !Eligible(h, r, c) then Reason(h, r, c)
    else if winner.None? then ""
    else if c != winner.value then LostReason(c, winner.value)
    else if c.target in r.tips && BaselineArtifact(c) != L.Tip(r.tips[c.target]) then "qualified_ancestor_win"
    else "qualified_win"
  }

  function WinnerOf(h: Hashes, r: Round, rows: seq<Candidate>): Option<Candidate> {
    var eligible := EligibleRows(h, r, rows);
    if eligible == [] then None else Some(First(eligible))
  }

  ghost predicate DisposedBy(h: Hashes, r: Round, d: Draft, c: Candidate, winner: Option<Candidate>) {
    && d.candidate == c && d.to == Current(h, r) && d.target == c.target
    && (winner != Some(c) ==> d.subject == c.delta)
    && d.kind == (if winner == Some(c) then CROWN else HOLD)
    && d.reason == DisposalReason(h, r, c, winner)
  }

  ghost predicate FollowsUp(d: Draft, winner: Option<Candidate>) {
    winner == Some(d.candidate) && d.kind in {RETIREMENT, ADOPTION, STACK_TRANSITION}
  }

  lemma HeldElements(h: Hashes, r: Round, rows: seq<Candidate>, c: Candidate)
    ensures c in HeldRows(h, r, rows) <==> c in rows && !Eligible(h, r, c)
  {
    KeepElements(rows, IsHeld(h, r));
    SortElements(OrderLeq, Keep(rows, IsHeld(h, r)), c);
  }

  lemma OtherElements(eligible: seq<Candidate>, w: Candidate, c: Candidate)
    ensures c in Others(eligible, w) <==> c in eligible && c != w
  {
    KeepElements(eligible, IsOther(w));
    SortElements(OrderLeq, Keep(eligible, IsOther(w)), c);
  }

  lemma WinnerFollows(h: Hashes, r: Round, w: Candidate, manifest: Manifest, after: Arm)
    requires w.target in w.proposed.entries && Eligible(h, r, w)
    ensures var ds := WinnerDrafts(h, r, w, manifest, after);
      |ds| > 0 && DisposedBy(h, r, ds[0], w, Some(w)) && forall i :: 0 < i < |ds| ==> FollowsUp(ds[i], Some(w))
  {
  }

  /** The drafts dispose of the queue in order; anything after follows up on the winner. */
  ghost predicate Lined(h: Hashes, r: Round, queue: seq<Candidate>, drafts: seq<Draft>, winner: Option<Candidate>) {
    |queue| <= |drafts| && forall i :: 0 <= i < |drafts| ==> LinedAt(h, r, queue, drafts[i], winner, i)
  }

  ghost predicate LinedAt(h: Hashes, r: Round, queue: seq<Candidate>, d: Draft, winner: Option<Candidate>, i: nat) {
    if i < |queue| then DisposedBy(h, r, d, queue[i], winner) else FollowsUp(d, winner)
  }

  ghost predicate Disposed(h: Hashes, r: Round, queue: seq<Candidate>, drafts: seq<Draft>, winner: Option<Candidate>) {
    |queue| == |drafts| && forall i :: 0 <= i < |drafts| ==> DisposedBy(h, r, drafts[i], queue[i], winner)
  }

  lemma DisposedConcat(
    h: Hashes, r: Round, p: seq<Candidate>, a: seq<Draft>, q: seq<Candidate>, b: seq<Draft>, winner: Option<Candidate>)
    requires Disposed(h, r, p, a, winner) && Disposed(h, r, q, b, winner)
    ensures Disposed(h, r, p + q, a + b, winner)
  {
  }

  lemma LinedConcat(
    h: Hashes, r: Round, p: seq<Candidate>, a: seq<Draft>, w: Candidate, tail: seq<Draft>, winner: Option<Candidate>)
    requires Disposed(h, r, p, a, winner) && tail != [] && DisposedBy(h, r, tail[0], w, winner)
    requires forall i :: 0 < i < |tail| ==> FollowsUp(tail[i], winner)
    ensures Lined(h, r, p + [w], a + tail, winner)
  {
    var drafts := a + tail;
    forall i | 0 <= i < |drafts| ensures LinedAt(h, r, p + [w], drafts[i], winner, i) {
      if i >= |a| { assert drafts[i] == tail[i - |a|]; }
    }
  }

  lemma StaleDisposed(h: Hashes, r: Round, rows: seq<Candidate>, winner: Option<Candidate>)
    requires winner.Some? ==> Eligible(h, r, winner.value)
    ensures Disposed(h, r, HeldRows(h, r, rows), StaleDrafts(h, r, HeldRows(h, r, rows)), winner)
  {
    var held := HeldRows(h, r, rows);
    forall i | 0 <= i < |held| ensures !Eligible(h, r, held[i]) { HeldElements(h, r, rows, held[i]); }
  }

  lemma LostDisposed(h: Hashes, r: Round, eligible: seq<Candidate>, w: Candidate)
    requires forall c :: c in eligible ==> Eligible(h, r, c)
    ensures Disposed(h, r, Others(eligible, w), LostDrafts(Others(eligible, w), w, Current(h, r)), Some(w))
  {
    var others := Others(eligible, w);
    forall i | 0 <= i < |others| ensures Eligible(h, r, others[i]) && others[i] != w {
      OtherElements(eligible, w, others[i]);
    }
  }

  lemma CrownLined(h: Hashes, r: Round, rows: seq<Candidate>, e: seq<Candidate>, w: Candidate, m: Manifest, after: Arm)
    requires e == EligibleRows(h, r, rows) && e != [] && w == First(e) && w.target in w.proposed.entries
    ensures Lined(h, r, Queue(h, r, rows),
                  StaleDrafts(h, r, HeldRows(h, r, rows)) + LostDrafts(Others(e, w), w, Current(h, r)) +
                  WinnerDrafts(h, r, w, m, after), Some(w))
  {
    KeepElements(rows, IsEligible(h, r));
    var held, others := HeldRows(h, r, rows), Others(e, w);
    var stale, lost := StaleDrafts(h, r, held), LostDrafts(others, w, Current(h, r));
    StaleDisposed(h, r, rows, Some(w));
    LostDisposed(h, r, e, w);
    DisposedConcat(h, r, held, stale, others, lost, Some(w));
    WinnerFollows(h, r, w, m, after);
    LinedConcat(h, r, held + others, stale + lost, w, WinnerDrafts(h, r, w, m, after), Some(w));
  }

  lemma PlanLined(h: Hashes, r: Round, rows: seq<Candidate>)
    requires Targeted(rows) && PlanOf(h, r, rows).Some?
    ensures Lined(h, r, Queue(h, r, rows), Drafts(h, r, rows), WinnerOf(h, r, rows))
  {
    var e := EligibleRows(h, r, rows);
    if e == [] {
      StaleDisposed(h, r, rows, None);
    } else {
      PlanTransition(h, r, rows, First(e));
      CrownLined(h, r, rows, e, First(e), Adopt(h, r, First(e)).value.0, Adopt(h, r, First(e)).value.1);
    }
  }

  lemma QueueShorter(h: Hashes, r: Round, rows: seq<Candidate>)
    requires Targeted(rows) && PlanOf(h, r, rows).Some?
    ensures |Queue(h, r, rows)| <= |Drafts(h, r, rows)|
  {
    PlanLined(h, r, rows);
  }

  lemma DraftsFollowQueue(h: Hashes, r: Round, rows: seq<Candidate>, i: nat)
    requires Targeted(rows) && PlanOf(h, r, rows).Some? && i < |Drafts(h, r, rows)|
    ensures LinedAt(h, r, Queue(h, r, rows), Drafts(h, r, rows)[i], WinnerOf(h, r, rows), i)
  {
    PlanLined(h, r, rows);
  }

  lemma LineAt(held: seq<Candidate>, e: seq<Candidate>, i: nat)
    requires e != [] && |held| <= i
    ensures |Line(held, e)| == |held| + |Others(e, First(e))| + 1
    ensures i < |Line(held, e)| ==>
      Line(held, e)[i] == if i - |held| < |Others(e, First(e))| then Others(e, First(e))[i - |held|] else First(e)
  {
  }

  lemma PlanEvents(h: Hashes, r: Round, rows: seq<Candidate>)
    requires Targeted(rows) && PlanOf(h, r, rows).Some?
    ensures PlanOf(h, r, rows).value.events == Written(h, Drafts(h, r, rows), Current(h, r), r.sequence, r.previous)
  {
  }

  ghost predicate AllRecorded(h: Hashes, events: seq<Event>, drafts: seq<Draft>, from: Arm) {
    |events| == |drafts| && forall i :: 0 <= i < |events| ==> Records(h, events[i], drafts[i], from)
  }

  /** The event at `i`, and no other, disposes of the candidate. */
  ghost predicate OnlyDisposal(
    h: Hashes, r: Round, events: seq<Event>, c: Candidate, winner: Option<Candidate>, i: nat)
  {
    && i < |events| && Disposes(h, events[i], c)
    && (forall j :: 0 <= j < |events| && Disposes(h, events[j], c) ==> j == i)
    && (events[i].kind == CROWN <==> winner == Some(c))
    && events[i].target == c.target && (winner != Some(c) ==> events[i].subject == c.delta)
    && events[i].reason == DisposalReason(h, r, c, winner)
    && events[i].from == events[i].to == Current(h, r)
  }

  lemma NoOtherDisposal(
    h: Hashes, r: Round, queue: seq<Candidate>, d: Draft, e: Event, winner: Option<Candidate>, i: nat, j: nat)
    requires Distinct(queue) && i < |queue| && Records(h, e, d, Current(h, r)) && LinedAt(h, r, queue, d, winner, j)
    requires forall a, b :: a in queue && b in queue && h.candidate(a) == h.candidate(b) ==> a == b
    ensures Disposes(h, e, queue[i]) ==> j == i
  {
    if j < |queue| { assert queue[i] in queue && queue[j] in queue; }
  }

  lemma OneDisposal(
    h: Hashes, r: Round, queue: seq<Candidate>, drafts: seq<Draft>, events: seq<Event>, winner: Option<Candidate>,
    i: nat)
    requires Lined(h, r, queue, drafts, winner) && AllRecorded(h, events, drafts, Current(h, r)) && Distinct(queue) &&
      i < |queue|
    requires forall a, b :: a in queue && b in queue && h.candidate(a) == h.candidate(b) ==> a == b
    ensures OnlyDisposal(h, r, events, queue[i], winner, i)
  {
    assert LinedAt(h, r, queue, drafts[i], winner, i) && Records(h, events[i], drafts[i], Current(h, r));
    forall j | 0 <= j < |events| && Disposes(h, events[j], queue[i]) ensures j == i {
      NoOtherDisposal(h, r, queue, drafts[j], events[j], winner, i, j);
    }
  }

  lemma PlanRecorded(h: Hashes, r: Round, rows: seq<Candidate>)
    requires Targeted(rows) && PlanOf(h, r, rows).Some?
    ensures AllRecorded(h, PlanOf(h, r, rows).value.events, Drafts(h, r, rows), Current(h, r))
  {
    PlanEvents(h, r, rows);
    WrittenRecords(h, Drafts(h, r, rows), Current(h, r), r.sequence, r.previous);
  }

  /** One HOLD or CROWN per candidate, the CROWN exactly for the winner, with its reason. */
  lemma EveryCandidateDisposed(h: Hashes, r: Round, rows: seq<Candidate>, c: Candidate)
    requires Targeted(rows) && PlanOf(h, r, rows).Some? && c in rows
    ensures exists i :: OnlyDisposal(h, r, PlanOf(h, r, rows).value.events, c, WinnerOf(h, r, rows), i)
  {
    var queue := Queue(h, r, rows);
    QueueContents(h, r, rows);
    DigestsApart(h, rows);
    PlanLined(h, r, rows);
    PlanRecorded(h, r, rows);
    var i: nat :| i < |queue| && queue[i] == c;
    OneDisposal(h, r, queue, Drafts(h, r, rows), PlanOf(h, r, rows).value.events, WinnerOf(h, r, rows), i);
  }

  /** A plan names a winner exactly when some candidate is eligible, and the winner is the best one. */
  lemma WinnerIsBest(h: Hashes, r: Round, rows: seq<Candidate>)
    requires Targeted(rows) && PlanOf(h, r, rows).Some?
    ensures PlanOf(h, r, rows).value.transition.None? <==> forall c :: c in rows ==> !Eligible(h, r, c)
    ensures forall w :: Best(h, r, rows, w) <==> WinnerOf(h, r, rows) == Some(w)
    ensures forall w :: Best(h, r, rows, w) ==> PlanOf(h, r, rows).value.winner == h.candidate(w)
  {
    KeepElements(rows, IsEligible(h, r));
    var e := EligibleRows(h, r, rows);
    if e != [] {
      FirstIsBest(h, r, rows);
      forall w | Best(h, r, rows, w) ensures w == First(e) { BestUnique(h, r, rows, w, First(e)); }
      assert First(e) in rows && Eligible(h, r, First(e));
    }
  }

  // ----- the adopted stack

  /** The checks of the plan and transition constructors. */
  ghost predicate Constructible(h: Hashes, r: Round, p: Plan) {
    && p.before == Current(h, r)
    && Chained(h, p.events, r.sequence, r.previous)
    && match p.transition
       case None => p.winner == "" && p.before == p.after
       case Some(t) =>
         && t.candidate == p.winner && t.before == p.before && t.after == p.after
         && t.before != t.after && h.manifest(t.manifest) == t.after.stack
  }

  lemma PlanConstructible(h: Hashes, r: Round, rows: seq<Candidate>)
    requires Targeted(rows) && PlanOf(h, r, rows).Some?
    ensures Constructible(h, r, PlanOf(h, r, rows).value)
  {
    PlanChained(h, r, rows);
    PlanJoined(h, r, rows);
  }

  lemma PlanChained(h: Hashes, r: Round, rows: seq<Candidate>)
    requires Targeted(rows) && PlanOf(h, r, rows).Some?
    ensures Chained(h, PlanOf(h, r, rows).value.events, r.sequence, r.previous)
  {
    PlanEvents(h, r, rows);
    WrittenChained(h, Drafts(h, r, rows), Current(h, r), r.sequence, r.previous);
  }

  lemma PlanJoined(h: Hashes, r: Round, rows: seq<Candidate>)
    requires Targeted(rows) && PlanOf(h, r, rows).Some?
    ensures var p := PlanOf(h, r, rows).value;
      && p.before == Current(h, r)
      && match p.transition
         case None => p.winner == "" && p.before == p.after
         case Some(t) =>
           && t.candidate == p.winner && t.before == p.before && t.after == p.after
           && t.before != t.after && h.manifest(t.manifest) == t.after.stack
  {
  }

  /** `m` is the current stack with the winner's entry; every other target keeps its entry. */
  ghost predicate Composed(was: Manifest, w: Candidate, m: Manifest)
    requires w.target in w.proposed.entries
  {
    && m.base == was.base && m.entries.Keys == was.entries.Keys + {w.target}
    && m.entries[w.target] == Replacement(w)
    && forall k :: k in was.entries && k != w.target ==> m.entries[k] == was.entries[k]
  }

  /** A stack measured as adopted keeps the measured tree; any other takes the resolver's. */
  ghost predicate Identified(h: Hashes, r: Round, w: Candidate, m: Manifest, after: Arm) {
    && after.stack == h.manifest(m)
    && if m == w.proposed then after.tree == w.proposedTree else r.resolver.Some? && after.tree == r.resolver.value(m)
  }

  lemma AdoptedManifest(h: Hashes, r: Round, w: Candidate)
    requires CollisionFree(h) && Qualified(w) && Adopt(h, r, w).Some?
    ensures var (m, after) := Adopt(h, r, w).value;
      Composed(r.manifest, w, m) && Identified(h, r, w, m, after)
  {
    var adopted := WithContribution(r.manifest, Replacement(w));
    assert h.manifest(adopted) == h.manifest(w.proposed) ==> SameDigest(h.manifest, adopted, w.proposed);
  }

  lemma PlanTransition(h: Hashes, r: Round, rows: seq<Candidate>, w: Candidate)
    requires Targeted(rows) && PlanOf(h, r, rows).Some? && WinnerOf(h, r, rows) == Some(w)
    ensures w in rows && Eligible(h, r, w)
    ensures Adopt(h, r, w).Some?
    ensures var t := PlanOf(h, r, rows).value.transition;
      t == Some(Transition(h.candidate(w), Current(h, r), Adopt(h, r, w).value.1, Adopt(h, r, w).value.0))
  {
    KeepElements(rows, IsEligible(h, r));
  }

  /** The winner's entry joins the current stack, measured on it or not. */
  lemma AdoptedStack(h: Hashes, r: Round, rows: seq<Candidate>, w: Candidate)
    requires CollisionFree(h) && Targeted(rows) && PlanOf(h, r, rows).Some? && Best(h, r, rows, w) && Qualified(w)
    ensures PlanOf(h, r, rows).value.transition.Some?
    ensures var t := PlanOf(h, r, rows).value.transition.value;
      Composed(r.manifest, w, t.manifest) && Identified(h, r, w, t.manifest, t.after)
  {
    WinnerIsBest(h, r, rows);
    PlanTransition(h, r, rows, w);
    AdoptedManifest(h, r, w);
  }

  /** The current stack already holds the entry the candidate offers. */
  ghost predicate InPlace(r: Round, w: Candidate)
    requires w.target in w.proposed.entries
  {
    w.target in r.manifest.entries && r.manifest.entries[w.target] == w.proposed.entries[w.target]
  }

  lemma ContributionKept(r: Round, w: Candidate)
    requires Qualified(w)
    ensures WithContribution(r.manifest, Replacement(w)) == r.manifest <==> InPlace(r, w)
  {
    var composed := WithContribution(r.manifest, Replacement(w));
    assert composed.entries[w.target] == Replacement(w);
    if InPlace(r, w) { assert composed.entries == r.manifest.entries; }
  }

  lemma ComposedIs(was: Manifest, w: Candidate, m: Manifest)
    requires Qualified(w)
    ensures Composed(was, w, m) <==> m == WithContribution(was, Replacement(w))
  {
    if Composed(was, w, m) { assert m.entries == WithContribution(was, Replacement(w)).entries; }
  }

  /** The rows at `i` and `j` share a digest or a reservation. */
  ghost predicate Repeats(h: Hashes, rows: seq<Candidate>, i: int, j: int) {
    && 0 <= i < j < |rows|
    && (h.candidate(rows[i]) == h.candidate(rows[j]) || rows[i].reservation == rows[j].reservation)
  }

  lemma UnduplicatedIff(h: Hashes, rows: seq<Candidate>)
    ensures Unduplicated(h, rows) <==> forall i, j :: !Repeats(h, rows, i, j)
  {
    var key := (c: Candidate) => c.reservation;
    assert Digests(h, rows) == Image(rows, h.candidate) && Reservations(rows) == Image(rows, key);
    if Unduplicated(h, rows) {
      forall i, j | 0 <= i < j < |rows| ensures !Repeats(h, rows, i, j) {
        KeysDistinct(rows, h.candidate, i, j);
        KeysDistinct(rows, key, i, j);
      }
    }
    if forall i, j :: !Repeats(h, rows, i, j) {
      forall i, j | 0 <= i < j < |rows|
        ensures h.candidate(rows[i]) != h.candidate(rows[j]) && key(rows[i]) != key(rows[j])
      {
        assert !Repeats(h, rows, i, j);
      }
      DistinctKeys(rows, h.candidate);
      DistinctKeys(rows, key);
    }
  }

  /** Exactly when planning raises: a duplicate, an entry already in place, or a composed stack without a resolver. */
  lemma PlanRefusedIff(h: Hashes, r: Round, rows: seq<Candidate>)
    requires CollisionFree(h) && Targeted(rows) && forall c :: c in rows ==> Qualified(c)
    ensures PlanOf(h, r, rows).None? <==>
      || (exists i, j :: Repeats(h, rows, i, j))
      || exists w :: Best(h, r, rows, w) &&
           (InPlace(r, w) || (r.resolver.None? && !Composed(r.manifest, w, w.proposed)))
  {
    UnduplicatedIff(h, rows);
    if Unduplicated(h, rows) {
      KeepElements(rows, IsEligible(h, r));
      var e := EligibleRows(h, r, rows);
      if e != [] {
        FirstIsBest(h, r, rows);
        forall w | Best(h, r, rows, w) ensures w == First(e) { BestUnique(h, r, rows, w, First(e)); }
        var composed := WithContribution(r.manifest, Replacement(First(e)));
        assert SameDigest(h.manifest, composed, r.manifest) <==> composed == r.manifest;
        assert SameDigest(h.manifest, composed, First(e).proposed) <==> composed == First(e).proposed;
        ComposedIs(r.manifest, First(e), First(e).proposed);
        ContributionKept(r, First(e));
      }
    }
  }

  // ----- the shape of the journal

  /** Where the CROWN stands. */
  function CrownAt(h: Hashes, r: Round, rows: seq<Candidate>): int {
    |Queue(h, r, rows)| - 1
  }

  lemma Tail<T>(a: seq<T>, b: seq<T>, n: nat)
    requires |a| == n
    ensures (a + b)[n..] == b
  {
  }

  lemma DraftsEnd(h: Hashes, r: Round, rows: seq<Candidate>, w: Candidate)
    requires Targeted(rows) && PlanOf(h, r, rows).Some? && WinnerOf(h, r, rows) == Some(w)
    ensures w in rows && Adopt(h, r, w).Some?
    ensures 0 <= CrownAt(h, r, rows) < |Drafts(h, r, rows)|
    ensures var (m, after) := Adopt(h, r, w).value;
      Drafts(h, r, rows)[CrownAt(h, r, rows)..] == WinnerDrafts(h, r, w, m, after)
  {
    PlanTransition(h, r, rows, w);
    QueueShorter(h, r, rows);
    var held, e := HeldRows(h, r, rows), EligibleRows(h, r, rows);
    LineAt(held, e, |held|);
    var (m, after) := Adopt(h, r, w).value;
    Tail(StaleDrafts(h, r, held) + LostDrafts(Others(e, w), w, Current(h, r)), WinnerDrafts(h, r, w, m, after),
         CrownAt(h, r, rows));
  }

  lemma EventAt(h: Hashes, r: Round, rows: seq<Candidate>, i: nat)
    requires Targeted(rows) && PlanOf(h, r, rows).Some? && i < |Drafts(h, r, rows)|
    ensures |PlanOf(h, r, rows).value.events| == |Drafts(h, r, rows)|
    ensures Records(h, PlanOf(h, r, rows).value.events[i], Drafts(h, r, rows)[i], Current(h, r))
  {
    PlanEvents(h, r, rows);
    WrittenRecords(h, Drafts(h, r, rows), Current(h, r), r.sequence, r.previous);
  }

  /** What the winner writes: CROWN, the RETIREMENT of a prior entry, ADOPTION, STACK_TRANSITION. */
  ghost predicate WinnerShape(h: Hashes, r: Round, w: Candidate, m: Manifest, after: Arm, tail: seq<Event>)
    requires w.target in w.proposed.entries
  {
    var prior, now, ref := r.manifest.entries, Current(h, r), h.ref(Replacement(w));
    && |tail| == 3 + (if w.target in prior then 1 else 0)
    && (forall i :: 0 <= i < |tail| ==> tail[i].candidate == h.candidate(w))
    && Tells(tail[0], CROWN, ref, w.target, now, now)
    && (w.target in prior ==>
          && Tells(tail[1], RETIREMENT, h.ref(prior[w.target]), prior[w.target].target, now, now)
          && tail[1].reason == "superseded")
    && Tells(tail[|tail| - 2], ADOPTION, ref, w.target, now, after) && tail[|tail| - 2].reason == "adopted"
    && Tells(tail[|tail| - 1], STACK_TRANSITION, h.manifest(m), w.target, now, after)
    && tail[|tail| - 1].reason == "incumbent_updated"
  }

  lemma RecordedShape(h: Hashes, r: Round, w: Candidate, m: Manifest, after: Arm, tail: seq<Event>)
    requires w.target in w.proposed.entries && |tail| == |WinnerDrafts(h, r, w, m, after)|
    requires forall i :: 0 <= i < |tail| ==> Records(h, tail[i], WinnerDrafts(h, r, w, m, after)[i], Current(h, r))
    ensures WinnerShape(h, r, w, m, after, tail)
  {
  }

  lemma TailRecorded(h: Hashes, now: Arm, events: seq<Event>, drafts: seq<Draft>, n: nat, tail: seq<Draft>)
    requires AllRecorded(h, events, drafts, now) && n <= |drafts| && drafts[n..] == tail
    ensures |events[n..]| == |tail| && forall k :: 0 <= k < |tail| ==> Records(h, events[n..][k], tail[k], now)
  {
    forall k | 0 <= k < |tail| ensures Records(h, events[n..][k], tail[k], now) {
      assert events[n..][k] == events[n + k] && drafts[n..][k] == drafts[n + k];
    }
  }

  lemma WinnerTail(h: Hashes, r: Round, rows: seq<Candidate>, w: Candidate)
    requires Targeted(rows) && PlanOf(h, r, rows).Some? && WinnerOf(h, r, rows) == Some(w)
    ensures w in rows && Adopt(h, r, w).Some? && 0 <= CrownAt(h, r, rows) <= |PlanOf(h, r, rows).value.events|
    ensures WinnerShape(h, r, w, Adopt(h, r, w).value.0, Adopt(h, r, w).value.1,
                        PlanOf(h, r, rows).value.events[CrownAt(h, r, rows)..])
  {
    var n, events := CrownAt(h, r, rows), PlanOf(h, r, rows).value.events;
    DraftsEnd(h, r, rows, w);
    PlanRecorded(h, r, rows);
    var m, after := Adopt(h, r, w).value.0, Adopt(h, r, w).value.1;
    TailRecorded(h, Current(h, r), events, Drafts(h, r, rows), n, WinnerDrafts(h, r, w, m, after));
    RecordedShape(h, r, w, m, after, events[n..]);
  }

  lemma HoldsFirst(h: Hashes, r: Round, rows: seq<Candidate>, i: nat)
    requires Targeted(rows) && PlanOf(h, r, rows).Some? && i < CrownAt(h, r, rows)
    ensures i < |PlanOf(h, r, rows).value.events| && PlanOf(h, r, rows).value.events[i].kind == HOLD
    ensures PlanOf(h, r, rows).value.events[i].from == Current(h, r) == PlanOf(h, r, rows).value.events[i].to
  {
    QueueShorter(h, r, rows);
    EventAt(h, r, rows, i);
    DraftsFollowQueue(h, r, rows, i);
    QueueContents(h, r, rows);
    var held, e := HeldRows(h, r, rows), EligibleRows(h, r, rows);
    if e != [] {
      LineAt(held, e, |held| + |Others(e, First(e))|);
    } else {
      assert WinnerOf(h, r, rows) == None;
    }
  }

  /** HOLD events, then the winner's events. */
  lemma WinnerEvents(h: Hashes, r: Round, rows: seq<Candidate>, w: Candidate)
    requires Targeted(rows) && PlanOf(h, r, rows).Some? && WinnerOf(h, r, rows) == Some(w)
    ensures w in rows
    ensures var p, n := PlanOf(h, r, rows).value, CrownAt(h, r, rows);
      && 0 <= n <= |p.events| && p.transition.Some?
      && (forall i :: 0 <= i < n ==> p.events[i].kind == HOLD && p.events[i].from == p.events[i].to == p.before)
      && WinnerShape(h, r, w, p.transition.value.manifest, p.after, p.events[n..])
  {
    WinnerTail(h, r, rows, w);
    PlanTransition(h, r, rows, w);
    forall i | 0 <= i < CrownAt(h, r, rows)
      ensures var e := PlanOf(h, r, rows).value.events[i]; e.kind == HOLD && e.from == e.to == Current(h, r)
    {
      HoldsFirst(h, r, rows, i);
    }
  }

  /** Without a winner every event is a HOLD. */
  lemma OnlyHolds(h: Hashes, r: Round, rows: seq<Candidate>, i: nat)
    requires Targeted(rows) && PlanOf(h, r, rows).Some? && WinnerOf(h, r, rows) == None
    requires i < |PlanOf(h, r, rows).value.events|
    ensures var e := PlanOf(h, r, rows).value.events[i]; e.kind == HOLD && e.from == e.to == Current(h, r)
  {
    PlanEvents(h, r, rows);
    WrittenRecords(h, Drafts(h, r, rows), Current(h, r), r.sequence, r.previous);
    DraftsFollowQueue(h, r, rows, i);
  }
}
