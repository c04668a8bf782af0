/** The planner, step by step (`cacheon/settlement.py`, `plan_settlement`). */
module SettlementPlanner {
  import opened Orders
  import opened Wrappers
  import opened Settlement
  import L = Lineage
  import PlanOutcome

  method LineageHoldReason(c: Candidate, tips: map<string, TargetLineage>) returns (reason: string)
    ensures reason == if c.target in tips then LineageReason(tips[c.target], BaselineArtifact(c), c.Speedup()) else ""
  {
    if c.target !in tips {
      return "";
    }
    var threshold := L.ThresholdFrom(tips[c.target], BaselineArtifact(c));
    match threshold {
      case AtTip => reason := "";
      case NotInLineage => reason := "stale_incumbent";
      case Beat(product, _) => reason := if c.Speedup() > product then "" else "lost_potential";
    }
  }

  ghost predicate Explains(h: Hashes, r: Round, rows: seq<Candidate>, reasons: map<string, string>) {
    forall c :: c in rows ==> h.candidate(c) in reasons && reasons[h.candidate(c)] == Reason(h, r, c)
  }

  method Reasons(h: Hashes, r: Round, rows: seq<Candidate>) returns (reasons: map<string, string>)
    requires Unduplicated(h, rows)
    ensures Explains(h, r, rows, reasons)
  {
    reasons := map[];
    DigestsApart(h, rows);
    for i := 0 to |rows|
      invariant forall j :: 0 <= j < i ==>
        h.candidate(rows[j]) in reasons && reasons[h.candidate(rows[j])] == Reason(h, r, rows[j])
    {
      var c, reason := rows[i], "";
      if c.target in r.tips {
        reason := LineageHoldReason(c, r.tips);
      } else if Arm(h.manifest(c.incumbent), c.incumbentTree) != Current(h, r) {
        reason := "stale_incumbent";
      }
      reasons := reasons[h.candidate(c) := reason];
    }
  }

  method Divide(h: Hashes, r: Round, rows: seq<Candidate>, reasons: map<string, string>)
    returns (current: seq<Candidate>, stale: seq<Candidate>)
    requires Explains(h, r, rows, reasons)
    ensures current == EligibleRows(h, r, rows) && stale == Keep(rows, IsHeld(h, r))
  {
    current, stale := [], [];
    for i := 0 to |rows|
      invariant current == Keep(rows[..i], IsEligible(h, r)) && stale == Keep(rows[..i], IsHeld(h, r))
    {
      assert rows[..i + 1][..i] == rows[..i];
      if reasons[h.candidate(rows[i])] == "" {
        current := current + [rows[i]];
      } else {
        stale := stale + [rows[i]];
      }
    }
    assert rows[..|rows|] == rows;
  }

  lemma TakeNext<T>(before: seq<T>, s: seq<T>, i: nat)
    requires i < |s|
    ensures before + s[..i] + [s[i]] == before + s[..i + 1]
  {
  }

  method HoldStale(h: Hashes, r: Round, stale: seq<Candidate>, reasons: map<string, string>, journal: Journal)
    requires Explains(h, r, stale, reasons)
    requires journal.Valid() && journal.from == Current(h, r)
    modifies journal
    ensures journal.Valid() && journal.drafts == old(journal.drafts) + StaleDrafts(h, r, stale)
  {
    ghost var all := StaleDrafts(h, r, stale);
    for i := 0 to |stale|
      invariant journal.Valid() && journal.drafts == old(journal.drafts) + all[..i]
    {
      assert stale[i] in stale;
      TakeNext(old(journal.drafts), all, i);
      journal.Add(HoldDraft(stale[i], journal.from, reasons[h.candidate(stale[i])]));
    }
    assert all[..|stale|] == all;
  }

  method HoldLosers(losers: seq<Candidate>, winner: Candidate, journal: Journal)
    requires journal.Valid()
    modifies journal
    ensures journal.Valid() && journal.drafts == old(journal.drafts) + LostDrafts(losers, winner, journal.from)
  {
    ghost var all := LostDrafts(losers, winner, journal.from);
    for i := 0 to |losers|
      invariant journal.Valid() && journal.drafts == old(journal.drafts) + all[..i]
    {
      TakeNext(old(journal.drafts), all, i);
      journal.Add(HoldDraft(losers[i], journal.from, LostReason(losers[i], winner)));
    }
    assert all[..|losers|] == all;
  }

  /** `min` by `(-speedup, finalized_order)`. */
  method Fastest(rows: seq<Candidate>) returns (winner: Candidate)
    requires rows != [] && KeysDistinguish(WinnerLeq, rows)
    ensures winner == First(rows)
  {
    winner := rows[0];
    WinnerPreorder();
    for i := 1 to |rows|
      invariant winner in rows && forall j :: 0 <= j < i ==> WinnerLeq(winner, rows[j])
    {
      if !WinnerLeq(winner, rows[i]) {
        winner := rows[i];
      }
    }
    FirstIsLeast(rows, winner);
  }

  method AnnounceCrown(h: Hashes, r: Round, winner: Candidate, journal: Journal)
    requires winner.target in winner.proposed.entries && journal.Valid() && journal.from == Current(h, r)
    modifies journal
    ensures journal.Valid() && journal.drafts == old(journal.drafts) + CrownDrafts(h, r, winner)
  {
    var prior := r.manifest.entries;
    var ancestor := winner.target in r.tips && BaselineArtifact(winner) != L.Tip(r.tips[winner.target]);
    journal.Add(Draft(CROWN, winner, h.ref(Replacement(winner)), winner.target, journal.from,
                      if ancestor then "qualified_ancestor_win" else "qualified_win"));
    if winner.target in prior {
      var retired := prior[winner.target];
      journal.Add(Draft(RETIREMENT, winner, h.ref(retired), retired.target, journal.from, "superseded"));
    }
  }

  method AnnounceAdoption(h: Hashes, winner: Candidate, manifest: Manifest, after: Arm, journal: Journal)
    requires winner.target in winner.proposed.entries && journal.Valid()
    modifies journal
    ensures journal.Valid() && journal.drafts == old(journal.drafts) + AdoptionDrafts(h, winner, manifest, after)
  {
    journal.Add(Draft(ADOPTION, winner, h.ref(Replacement(winner)), winner.target, after, "adopted"));
    journal.Add(Draft(STACK_TRANSITION, winner, h.manifest(manifest), winner.target, after, "incumbent_updated"));
  }

  method CrownWinner(h: Hashes, r: Round, winner: Candidate, manifest: Manifest, after: Arm, journal: Journal)
    requires winner.target in winner.proposed.entries && journal.Valid() && journal.from == Current(h, r)
    modifies journal
    ensures journal.Valid() && journal.drafts == old(journal.drafts) + WinnerDrafts(h, r, winner, manifest, after)
  {
    AnnounceCrown(h, r, winner, journal);
    AnnounceAdoption(h, winner, manifest, after, journal);
    Regroup(old(journal.drafts), CrownDrafts(h, r, winner), AdoptionDrafts(h, winner, manifest, after));
  }

  method Conclude(h: Hashes, r: Round, current: seq<Candidate>, journal: Journal) returns (plan: Option<Plan>)
    requires Targeted(current) && current != [] && KeysDistinguish(WinnerLeq, current)
    requires journal.Valid() && journal.from == Current(h, r) && journal.h == h
    requires journal.sequence0 == r.sequence && journal.previous0 == r.previous
    modifies journal
    ensures plan == CrownPlan(h, r, old(journal.drafts), current)
  {
    var before := journal.from;
    var winner := Fastest(current);
    HoldLosers(Others(current, winner), winner, journal);
    var adopted := WithContribution(r.manifest, Replacement(winner));
    var after := before;
    if h.manifest(adopted) == before.stack {
      return None;
    } else if h.manifest(adopted) == h.manifest(winner.proposed) {
      adopted, after := winner.proposed, Arm(h.manifest(winner.proposed), winner.proposedTree);
    } else if r.resolver.None? {
      return None;
    } else {
      after := Arm(h.manifest(adopted), r.resolver.value(adopted));
    }
    CrownWinner(h, r, winner, adopted, after, journal);
    plan := Some(Plan(before, after, h.candidate(winner), journal.events,
                      Some(Transition(h.candidate(winner), before, after, adopted))));
  }

  lemma Prepared(h: Hashes, r: Round, rows: seq<Candidate>, reasons: map<string, string>)
    requires Targeted(rows) && Unduplicated(h, rows) && Explains(h, r, rows, reasons)
    ensures Explains(h, r, HeldRows(h, r, rows), reasons)
    ensures Targeted(EligibleRows(h, r, rows)) && KeysDistinguish(WinnerLeq, EligibleRows(h, r, rows))
  {
    forall c | c in HeldRows(h, r, rows) ensures c in rows { HeldElements(h, r, rows, c); }
    Distinguished(h, rows);
    SubKeys(WinnerLeq, rows, IsEligible(h, r));
    KeepElements(rows, IsEligible(h, r));
  }

  lemma Described(h: Hashes, r: Round, rows: seq<Candidate>)
    requires CollisionFree(h) && Targeted(rows) && PlanOutcome.Admissible(rows)
    ensures
      if PlanOf(h, r, rows).None? then PlanOutcome.Refused(h, r, rows)
      else !PlanOutcome.Refused(h, r, rows) && PlanOutcome.IsPlan(h, r, rows, PlanOf(h, r, rows).value)
  {
    PlanOutcome.RefusedMeaning(h, r, rows);
    if PlanOf(h, r, rows).Some? { PlanOutcome.PlanMeaning(h, r, rows, PlanOf(h, r, rows).value); }
  }

  /** `plan_settlement` */
  method PlanSettlement(h: Hashes, r: Round, rows: seq<Candidate>) returns (plan: Option<Plan>)
    requires Targeted(rows)
    ensures plan == PlanOf(h, r, rows)
    ensures CollisionFree(h) && PlanOutcome.Admissible(rows) ==>
      if plan.None? then PlanOutcome.Refused(h, r, rows)
      else !PlanOutcome.Refused(h, r, rows) && PlanOutcome.IsPlan(h, r, rows, plan.value)
  {
    if CollisionFree(h) && PlanOutcome.Admissible(rows) { Described(h, r, rows); }
    if |Digests(h, rows)| != |rows| || |Reservations(rows)| != |rows| {
      return None;
    }
    var before := Current(h, r);
    var journal := new Journal(h, before, r.sequence, r.previous);
    var reasons := Reasons(h, r, rows);
    var current, stale := Divide(h, r, rows, reasons);
    Prepared(h, r, rows, reasons);
    HoldStale(h, r, Sort(OrderLeq, stale), reasons, journal);
    assert journal.drafts == StaleDrafts(h, r, HeldRows(h, r, rows));
    if current == [] {
      return Some(Plan(before, before, "", journal.events, None));
    }
    plan := Conclude(h, r, current, journal);
  }
}
