/** What committing a round writes, in the candidates' own fields
    (`cacheon/chain/intake.py`, `cacheon/chain/arena_state.py`). */
module CommitOutcome {
  import opened Orders
  import opened Wrappers
  import opened Settlement
  import opened SettlementOutcome
  import opened PlanOutcome
  import opened SettlementRuns
  import L = Lineage

  /** The round continues the state's journal from its last event. */
  ghost predicate Continues(h: Hashes, s: State, x: Input, r: Round) {
    && r.manifest == s.manifest && r.tree == s.tree && r.tips == x.tips && r.resolver == x.resolver
    && r.sequence == |s.events|
    && r.previous == if s.events == [] then "" else h.event(s.events[|s.events| - 1])
  }

  /** The lower of the retained runs. */
  ghost predicate LowerRun(c: Candidate, speed: real) {
    && speed <= c.primarySpeed && (c.reproducedSpeed.Some? ==> speed <= c.reproducedSpeed.value)
    && (speed == c.primarySpeed || c.reproducedSpeed == Some(speed))
  }

  /** The lineage row: the winner's artifact on the one it was measured on, its lower run, and its CROWN. */
  ghost predicate RowOf(h: Hashes, w: Candidate, crown: Event, row: L.Node)
    requires w.target in w.proposed.entries
  {
    && row.artifact == w.proposed.entries[w.target].artifact && MeasuredOn(w, row.parent)
    && LowerRun(w, row.speedup) && row.event == h.event(crown)
  }

  /** One row is written under the winner's target and artifact, and nothing else changes. */
  ghost predicate RowWritten(s: State, t: State, target: string, row: L.Node) {
    && t.nodes.Keys == s.nodes.Keys + {target}
    && (forall k :: k in s.nodes && k != target ==> t.nodes[k] == s.nodes[k])
    && t.nodes[target].Keys == (if target in s.nodes then s.nodes[target].Keys else {}) + {row.artifact}
    && t.nodes[target][row.artifact] == row
    && (target in s.nodes ==>
          forall a :: a in s.nodes[target] && a != row.artifact ==> t.nodes[target][a] == s.nodes[target][a])
  }

  ghost predicate TipMoved(s: State, t: State, target: string, artifact: string) {
    && t.tips.Keys == s.tips.Keys + {target} && t.tips[target] == artifact
    && forall k :: k in s.tips && k != target ==> t.tips[k] == s.tips[k]
  }

  /** The only CROWN among the events. */
  ghost predicate TheCrown(events: seq<Event>, crown: Event) {
    crown in events && crown.kind == CROWN && forall e :: e in events && e.kind == CROWN ==> e == crown
  }

  /** What the commit of a plan does: with a winner, stack, row and tip; always, the events. */
  ghost predicate Commits(h: Hashes, s: State, p: Plan, winner: Option<Candidate>, t: State) {
    && t.events == s.events + p.events
    && match winner
       case None => t.manifest == s.manifest && t.tree == s.tree && t.nodes == s.nodes && t.tips == s.tips
       case Some(w) =>
         && w.target in w.proposed.entries && p.transition.Some?
         && t.manifest == p.transition.value.manifest && t.tree == p.after.tree
         && TipMoved(s, t, w.target, w.proposed.entries[w.target].artifact)
         && exists crown, row :: TheCrown(p.events, crown) && RowOf(h, w, crown, row) && RowWritten(s, t, w.target, row)
  }

  /** The committed plan is the one described, for the winner described. */
  ghost predicate CommitsPlan(h: Hashes, s: State, x: Input, t: State, r: Round, p: Plan, winner: Option<Candidate>)
    requires Targeted(x.rows)
  {
    && Continues(h, s, x, r) && !Refused(h, r, x.rows) && IsPlan(h, r, x.rows, p)
    && (match winner
        case None => forall w :: !Wins(h, r, x.rows, w)
        case Some(w) => Wins(h, r, x.rows, w))
    && Commits(h, s, p, winner, t)
  }

  lemma RowIs(h: Hashes, w: Candidate, crown: Event, row: L.Node)
    requires w.target in w.proposed.entries
    ensures RowOf(h, w, crown, row) <==> row == CrownNode(h, w, crown)
  {
    BaselineMeaning(w, row.parent);
  }

  lemma WrittenMeaning(s: State, t: State, target: string, row: L.Node)
    ensures RowWritten(s, t, target, row) <==> t.nodes == s.nodes[target := L.Written(StoreOf(s, target), row)]
  {
    var store := L.Written(StoreOf(s, target), row);
    if RowWritten(s, t, target, row) {
      assert t.nodes[target] == store;
      assert t.nodes == s.nodes[target := store];
    }
  }

  lemma MovedMeaning(s: State, t: State, target: string, artifact: string)
    ensures TipMoved(s, t, target, artifact) <==> t.tips == s.tips[target := artifact]
  {
    if TipMoved(s, t, target, artifact) { assert t.tips == s.tips[target := artifact]; }
  }

  lemma CrownIs(h: Hashes, s: State, x: Input, w: Candidate, t: State, b: seq<Event>, n: int)
    requires Won(h, s, x, w, t, b, n)
    ensures TheCrown(b, b[n])
  {
    WonShape(h, RoundOf(h, s, x), w, t.manifest, ArmOf(h, t), b, n);
    assert b[n] in b;
    forall e | e in b && e.kind == CROWN ensures e == b[n] {
      var i :| 0 <= i < |b| && b[i] == e;
    }
  }

  lemma WinnerCommits(h: Hashes, s: State, x: Input, t: State, w: Candidate)
    requires CollisionFree(h) && Next(h, s, x, t) && WinnerOf(h, RoundOf(h, s, x), x.rows) == Some(w)
    ensures Commits(h, s, PlanOf(h, RoundOf(h, s, x), x.rows).value, Some(w), t)
  {
    var r := RoundOf(h, s, x);
    var p, n := PlanOf(h, r, x.rows).value, CrownAt(h, r, x.rows);
    RoundWon(h, s, x, t, w);
    CrownIs(h, s, x, w, t, p.events, n);
    var row := CrownNode(h, w, p.events[n]);
    RowIs(h, w, p.events[n], row);
    WrittenMeaning(s, t, w.target, row);
    MovedMeaning(s, t, w.target, row.artifact);
    PlanTransition(h, r, x.rows, w);
    PlanConstructible(h, r, x.rows);
  }

  lemma NoneCommits(h: Hashes, s: State, x: Input, t: State)
    requires Next(h, s, x, t) && WinnerOf(h, RoundOf(h, s, x), x.rows) == None
    ensures Commits(h, s, PlanOf(h, RoundOf(h, s, x), x.rows).value, None, t)
  {
  }

  lemma WinnerWins(h: Hashes, r: Round, rows: seq<Candidate>)
    requires Targeted(rows) && PlanOf(h, r, rows).Some?
    ensures match WinnerOf(h, r, rows)
      case None => forall w :: !Wins(h, r, rows, w)
      case Some(w) => Wins(h, r, rows, w)
  {
    WinnerMeaning(h, r, rows);
  }

  /** A committed round appends the described plan, and writes the winner's row, tip and stack. */
  lemma CommitMeaning(h: Hashes, s: State, x: Input, t: State)
    requires CollisionFree(h) && Next(h, s, x, t) && Admissible(x.rows)
    ensures exists r, p, winner :: CommitsPlan(h, s, x, t, r, p, winner)
  {
    var r := RoundOf(h, s, x);
    var p, winner := PlanOf(h, r, x.rows).value, WinnerOf(h, r, x.rows);
    PlanMeaning(h, r, x.rows, p);
    WinnerWins(h, r, x.rows);
    if winner.None? { NoneCommits(h, s, x, t); } else { WinnerCommits(h, s, x, t, winner.value); }
    assert CommitsPlan(h, s, x, t, r, p, winner);
  }

  lemma CommitsOnce(h: Hashes, s: State, p: Plan, winner: Option<Candidate>, t: State, u: State)
    requires Commits(h, s, p, winner, t) && Commits(h, s, p, winner, u)
    ensures t == u
  {
    if winner.Some? {
      var w := winner.value;
      var crown, row :| TheCrown(p.events, crown) && RowOf(h, w, crown, row) && RowWritten(s, t, w.target, row);
      var again, other :| TheCrown(p.events, again) && RowOf(h, w, again, other) && RowWritten(s, u, w.target, other);
      assert again == crown;
      RowIs(h, w, crown, row);
      RowIs(h, w, crown, other);
      WrittenMeaning(s, t, w.target, row);
      WrittenMeaning(s, u, w.target, row);
      MovedMeaning(s, t, w.target, row.artifact);
      MovedMeaning(s, u, w.target, row.artifact);
    }
  }

  /** The description of a commit leaves one state. */
  lemma CommitUnique(h: Hashes, s: State, x: Input, t: State, u: State, r: Round, p: Plan, winner: Option<Candidate>,
                     q: Plan, other: Option<Candidate>)
    requires CollisionFree(h) && Targeted(x.rows) && Admissible(x.rows)
    requires CommitsPlan(h, s, x, t, r, p, winner) && CommitsPlan(h, s, x, u, r, q, other)
    ensures t == u
  {
    PlanMeaning(h, r, x.rows, p);
    PlanMeaning(h, r, x.rows, q);
    if winner.Some? && other.Some? { OneWinner(h, r, x.rows, winner.value, other.value); }
    CommitsOnce(h, s, p, winner, t, u);
  }
}
