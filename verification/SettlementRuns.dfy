/** Runs of settlement rounds: a plan, then its commit (`cacheon/settlement.py`, `cacheon/chain/intake.py`). */
module SettlementRuns {
  import opened Wrappers
  import opened Settlement
  import L = Lineage

  /** What the control plane keeps for one arena: the stack, the journal, and the lineage tables by target. */
  datatype State = State(
    manifest: Manifest, tree: string, events: seq<Event>, nodes: map<string, L.Store>, tips: map<string, string>)

  /** One round: the leased candidates, the resolver, and the lineages reopened from the tables. */
  datatype Input = Input(rows: seq<Candidate>, resolver: Option<Manifest -> string>, tips: map<string, TargetLineage>)

  function RoundOf(h: Hashes, s: State, x: Input): Round {
    Round(s.manifest, s.tree, |s.events|, Head(h, s.events, ""), x.tips, x.resolver)
  }

  ghost predicate Reopened(s: State, tips: map<string, TargetLineage>) {
    && tips.Keys == s.tips.Keys <= s.nodes.Keys
    && forall k :: k in tips ==> L.StoredPath(s.nodes[k], s.tips[k], tips[k])
  }

  /** The round is accepted: lineages reopen, candidates are qualified, planning succeeds. */
  ghost predicate Accepted(h: Hashes, s: State, x: Input) {
    && Reopened(s, x.tips) && (forall c :: c in x.rows ==> Qualified(c))
    && Targeted(x.rows) && PlanOf(h, RoundOf(h, s, x), x.rows).Some?
  }

  /** The lineage row a crown writes. */
  function CrownNode(h: Hashes, w: Candidate, crown: Event): L.Node
    requires w.target in w.proposed.entries
  {
    L.Node(Replacement(w).artifact, BaselineArtifact(w), w.Speedup(), h.event(crown))
  }

  function StoreOf(s: State, target: string): L.Store {
    if target in s.nodes then s.nodes[target] else map[]
  }

  /** `commit_settlement`: append the events, write the crown's lineage row and tip, install the stack. */
  function Committed(h: Hashes, s: State, p: Plan, winner: Option<Candidate>, crown: nat): State
    requires winner.Some? ==>
      winner.value.target in winner.value.proposed.entries && p.transition.Some? && crown < |p.events|
  {
    var events := s.events + p.events;
    match winner
    case None => s.(events := events)
    case Some(w) =>
      var node, t := CrownNode(h, w, p.events[crown]), p.transition.value;
      State(t.manifest, t.after.tree, events,
            s.nodes[w.target := L.Written(StoreOf(s, w.target), node)], s.tips[w.target := node.artifact])
  }

  ghost predicate Next(h: Hashes, s: State, x: Input, t: State) {
    && Accepted(h, s, x)
    && var r := RoundOf(h, s, x);
       var p, w := PlanOf(h, r, x.rows).value, WinnerOf(h, r, x.rows);
       && (w.Some? ==> w.value.target in w.value.proposed.entries && p.transition.Some?)
       && (w.Some? ==> 0 <= CrownAt(h, r, x.rows) < |p.events|)
       && t == Committed(h, s, p, w, if w.Some? then CrownAt(h, r, x.rows) else 0)
  }

  // ----- what the journal says

  /** The stack identity after the events: where the last transition led. */
  function Replay(genesis: Arm, events: seq<Event>): Arm {
    if events == [] then genesis
    else
      var last := events[|events| - 1];
      if last.kind == STACK_TRANSITION then last.to else Replay(genesis, events[..|events| - 1])
  }

  /** Every event was written against the stack the earlier events lead to. */
  ghost predicate Linked(genesis: Arm, events: seq<Event>) {
    forall i :: 0 <= i < |events| ==> events[i].from == Replay(genesis, events[..i])
  }

  /** What the last CROWN of a target crowned. */
  function LastCrown(events: seq<Event>, target: string): Option<string> {
    if events == [] then None
    else
      var last := events[|events| - 1];
      if last.kind == CROWN && last.target == target then Some(last.subject)
      else LastCrown(events[..|events| - 1], target)
  }

  lemma {:induction false} ReplayQuiet(genesis: Arm, a: seq<Event>, b: seq<Event>)
    requires forall e :: e in b ==> e.kind != STACK_TRANSITION
    ensures Replay(genesis, a + b) == Replay(genesis, a)
  {
    if b == [] {
      assert a + b == a;
    } else {
      assert (a + b)[..|a + b| - 1] == a + b[..|b| - 1];
      ReplayQuiet(genesis, a, b[..|b| - 1]);
    }
  }

  lemma {:induction false} LastCrownQuiet(a: seq<Event>, b: seq<Event>, k: string)
    requires forall e :: e in b ==> !(e.kind == CROWN && e.target == k)
    ensures LastCrown(a + b, k) == LastCrown(a, k)
  {
    if b == [] {
      assert a + b == a;
    } else {
      assert (a + b)[..|a + b| - 1] == a + b[..|b| - 1];
      LastCrownQuiet(a, b[..|b| - 1], k);
    }
  }

  /** A round's events: all written against `now`, the last possibly a transition and no other. */
  ghost predicate RoundShape(events: seq<Event>, now: Arm) {
    forall i :: 0 <= i < |events| ==>
      events[i].from == now && (events[i].kind == STACK_TRANSITION ==> i == |events| - 1)
  }

  lemma LinkedAppend(genesis: Arm, a: seq<Event>, b: seq<Event>)
    requires Linked(genesis, a) && RoundShape(b, Replay(genesis, a))
    ensures Linked(genesis, a + b)
    ensures Replay(genesis, a + b) ==
      if b != [] && b[|b| - 1].kind == STACK_TRANSITION then b[|b| - 1].to else Replay(genesis, a)
  {
    forall i | 0 <= i < |a + b| ensures (a + b)[i].from == Replay(genesis, (a + b)[..i]) {
      if i < |a| {
        assert (a + b)[..i] == a[..i];
      } else {
        assert (a + b)[..i] == a + b[..i - |a|];
        ReplayQuiet(genesis, a, b[..i - |a|]);
      }
    }
    if b == [] || b[|b| - 1].kind != STACK_TRANSITION { ReplayQuiet(genesis, a, b); }
  }

  lemma ChainedAppend(h: Hashes, a: seq<Event>, b: seq<Event>)
    requires Chained(h, a, 0, "") && Chained(h, b, |a|, Head(h, a, ""))
    ensures Chained(h, a + b, 0, "")
  {
    forall i | 0 <= i < |a + b|
      ensures (a + b)[i].sequence == i && (a + b)[i].previous == Head(h, (a + b)[..i], "")
    {
      if i < |a| {
        assert (a + b)[..i] == a[..i];
      } else {
        assert (a + b)[i] == b[i - |a|] && (a + b)[..i] == a + b[..i - |a|];
      }
    }
  }

  // ----- a round's events

  /** HOLD events up to `n`, then what the winner writes. */
  ghost predicate WonRound(h: Hashes, r: Round, w: Candidate, m: Manifest, after: Arm, events: seq<Event>, n: int) {
    && w.target in w.proposed.entries && 0 <= n <= |events|
    && (forall i :: 0 <= i < n ==> events[i].kind == HOLD && events[i].from == Current(h, r))
    && WinnerShape(h, r, w, m, after, events[n..])
  }

  lemma WonShape(h: Hashes, r: Round, w: Candidate, m: Manifest, after: Arm, events: seq<Event>, n: int)
    requires WonRound(h, r, w, m, after, events, n)
    ensures RoundShape(events, Current(h, r)) && events != []
    ensures events[|events| - 1].kind == STACK_TRANSITION && events[|events| - 1].to == after
    ensures n < |events| && events[n].kind == CROWN && events[n].target == w.target &&
      events[n].subject == h.ref(Replacement(w))
    ensures forall i :: 0 <= i < |events| && i != n ==> events[i].kind != CROWN
  {
    assert forall i :: n <= i < |events| ==> events[i] == events[n..][i - n];
  }

  lemma HoldRoundShape(h: Hashes, r: Round, rows: seq<Candidate>)
    requires Targeted(rows) && PlanOf(h, r, rows).Some? && WinnerOf(h, r, rows) == None
    ensures var p := PlanOf(h, r, rows).value;
      RoundShape(p.events, p.before) && p.before == p.after && forall e :: e in p.events ==> e.kind == HOLD
  {
    forall i | 0 <= i < |PlanOf(h, r, rows).value.events|
      ensures var e := PlanOf(h, r, rows).value.events[i]; e.kind == HOLD && e.from == Current(h, r)
    {
      OnlyHolds(h, r, rows, i);
    }
  }

  lemma CrownsOnce(events: seq<Event>, n: nat, a: seq<Event>, k: string)
    requires n < |events| && events[n].kind == CROWN
    requires forall i :: 0 <= i < |events| && i != n ==> events[i].kind != CROWN
    ensures LastCrown(a + events, k) == if k == events[n].target then Some(events[n].subject) else LastCrown(a, k)
  {
    if k == events[n].target {
      var upto := a + events[..n + 1];
      assert a + events == upto + events[n + 1..];
      LastCrownQuiet(upto, events[n + 1..], k);
      assert upto[|upto| - 1] == events[n];
    } else {
      LastCrownQuiet(a, events, k);
    }
  }

  // ----- the invariant of every run

  function ArmOf(h: Hashes, s: State): Arm {
    Arm(h.manifest(s.manifest), s.tree)
  }

  ghost predicate Genesis(s: State) {
    KeyedManifest(s.manifest) && s.events == [] && s.nodes == map[] && s.tips == map[]
  }

  /** The journal is one hash chain that replays to the current stack. */
  ghost predicate JournalOk(h: Hashes, g: State, s: State) {
    && Chained(h, s.events, 0, "")
    && Linked(ArmOf(h, g), s.events) && Replay(ArmOf(h, g), s.events) == ArmOf(h, s)
  }

  /** Every entry is the genesis entry, or the contribution its target's last CROWN names. */
  ghost predicate EntryOk(h: Hashes, g: State, s: State, k: string) {
    match LastCrown(s.events, k)
    case None => (k in s.manifest.entries <==> k in g.manifest.entries) &&
                 (k in g.manifest.entries ==> s.manifest.entries[k] == g.manifest.entries[k])
    case Some(subject) => k in s.manifest.entries && h.ref(s.manifest.entries[k]) == subject
  }

  ghost predicate EntriesOk(h: Hashes, g: State, s: State) {
    && KeyedManifest(s.manifest) && s.manifest.base == g.manifest.base
    && forall k :: EntryOk(h, g, s, k)
  }

  /** A target has a lineage exactly when it was crowned, and its tip is the entry in the stack. */
  ghost predicate LineageOk(s: State) {
    && s.tips.Keys == s.nodes.Keys
    && (forall k :: k in s.tips <==> LastCrown(s.events, k).Some?)
    && forall k :: k in s.tips ==>
         L.Keyed(s.nodes[k]) && k in s.manifest.entries && s.tips[k] == s.manifest.entries[k].artifact
  }

  ghost predicate Inv(h: Hashes, g: State, s: State) {
    JournalOk(h, g, s) && EntriesOk(h, g, s) && LineageOk(s)
  }

  lemma GenesisInv(h: Hashes, g: State)
    requires Genesis(g)
    ensures Inv(h, g, g)
  {
  }

  // ----- one round

  /** What a round with a winner does to the state. */
  ghost predicate Won(h: Hashes, s: State, x: Input, w: Candidate, t: State, b: seq<Event>, n: int) {
    && Qualified(w) && w in x.rows && Eligible(h, RoundOf(h, s, x), w)
    && WinnerOf(h, RoundOf(h, s, x), x.rows) == Some(w)
    && t.events == s.events + b && Chained(h, b, |s.events|, Head(h, s.events, ""))
    && WonRound(h, RoundOf(h, s, x), w, t.manifest, ArmOf(h, t), b, n) && n < |b|
    && Composed(s.manifest, w, t.manifest)
    && t.nodes == s.nodes[w.target := L.Written(StoreOf(s, w.target), CrownNode(h, w, b[n]))]
    && t.tips == s.tips[w.target := Replacement(w).artifact]
  }

  /** What a round without a winner does. */
  ghost predicate Lost(h: Hashes, s: State, t: State, b: seq<Event>) {
    && t == s.(events := s.events + b) && Chained(h, b, |s.events|, Head(h, s.events, ""))
    && RoundShape(b, ArmOf(h, s)) && forall e :: e in b ==> e.kind == HOLD
  }

  lemma RoundWon(h: Hashes, s: State, x: Input, t: State, w: Candidate)
    requires CollisionFree(h) && Next(h, s, x, t) && WinnerOf(h, RoundOf(h, s, x), x.rows) == Some(w)
    ensures Won(h, s, x, w, t, PlanOf(h, RoundOf(h, s, x), x.rows).value.events, CrownAt(h, RoundOf(h, s, x), x.rows))
  {
    var r := RoundOf(h, s, x);
    PlanConstructible(h, r, x.rows);
    PlanTransition(h, r, x.rows, w);
    AdoptedManifest(h, r, w);
    WinnerEvents(h, r, x.rows, w);
  }

  /** An accepted round always commits: the winner's transition and CROWN are there to be applied. */
  lemma AcceptedCommits(h: Hashes, s: State, x: Input)
    requires Accepted(h, s, x)
    ensures exists t :: Next(h, s, x, t)
  {
    var r := RoundOf(h, s, x);
    var p, winner, n := PlanOf(h, r, x.rows).value, WinnerOf(h, r, x.rows), 0;
    if winner.Some? {
      WinnerEvents(h, r, x.rows, winner.value);
      n := CrownAt(h, r, x.rows);
    }
    assert Next(h, s, x, Committed(h, s, p, winner, n));
  }

  lemma RoundLost(h: Hashes, s: State, x: Input, t: State)
    requires Next(h, s, x, t) && WinnerOf(h, RoundOf(h, s, x), x.rows) == None
    ensures Lost(h, s, t, PlanOf(h, RoundOf(h, s, x), x.rows).value.events)
  {
    var r := RoundOf(h, s, x);
    PlanConstructible(h, r, x.rows);
    HoldRoundShape(h, r, x.rows);
  }

  lemma LostKeeps(h: Hashes, g: State, s: State, t: State, b: seq<Event>)
    requires Inv(h, g, s) && Lost(h, s, t, b)
    ensures Inv(h, g, t)
  {
    ChainedAppend(h, s.events, b);
    LinkedAppend(ArmOf(h, g), s.events, b);
    forall k ensures LastCrown(t.events, k) == LastCrown(s.events, k) { LastCrownQuiet(s.events, b, k); }
    forall k ensures EntryOk(h, g, t, k) { assert EntryOk(h, g, s, k); }
  }

  lemma WonJournal(h: Hashes, g: State, s: State, x: Input, w: Candidate, t: State, b: seq<Event>, n: int)
    requires JournalOk(h, g, s) && Won(h, s, x, w, t, b, n)
    ensures JournalOk(h, g, t)
  {
    WonShape(h, RoundOf(h, s, x), w, t.manifest, ArmOf(h, t), b, n);
    ChainedAppend(h, s.events, b);
    LinkedAppend(ArmOf(h, g), s.events, b);
  }

  lemma WonCrown(h: Hashes, s: State, x: Input, w: Candidate, t: State, b: seq<Event>, n: int, k: string)
    requires Won(h, s, x, w, t, b, n)
    ensures LastCrown(t.events, k) == if k == w.target then Some(h.ref(Replacement(w))) else LastCrown(s.events, k)
  {
    WonShape(h, RoundOf(h, s, x), w, t.manifest, ArmOf(h, t), b, n);
    CrownsOnce(b, n, s.events, k);
  }

  lemma EntryStep(h: Hashes, g: State, s: State, t: State, w: Candidate, k: string)
    requires EntryOk(h, g, s, k) && Qualified(w) && Composed(s.manifest, w, t.manifest)
    requires LastCrown(t.events, k) == if k == w.target then Some(h.ref(Replacement(w))) else LastCrown(s.events, k)
    ensures EntryOk(h, g, t, k)
  {
  }

  lemma KeyedStep(s: Manifest, w: Candidate, t: Manifest)
    requires KeyedManifest(s) && Qualified(w) && Composed(s, w, t)
    ensures KeyedManifest(t)
  {
    forall k | k in t.entries ensures t.entries[k].target == k && t.entries[k].artifact != "" {
      if k != w.target { assert k in s.entries; }
    }
  }

  lemma WonEntries(h: Hashes, g: State, s: State, x: Input, w: Candidate, t: State, b: seq<Event>, n: int)
    requires EntriesOk(h, g, s) && Won(h, s, x, w, t, b, n)
    ensures EntriesOk(h, g, t)
  {
    KeyedStep(s.manifest, w, t.manifest);
    forall k ensures EntryOk(h, g, t, k) {
      WonCrown(h, s, x, w, t, b, n, k);
      EntryStep(h, g, s, t, w, k);
    }
  }

  lemma StoreKeyed(s: State, k: string)
    requires LineageOk(s)
    ensures L.Keyed(StoreOf(s, k))
  {
  }

  lemma WonTips(h: Hashes, s: State, x: Input, w: Candidate, t: State, b: seq<Event>, n: int, k: string)
    requires LineageOk(s) && Won(h, s, x, w, t, b, n) && k in t.tips
    ensures L.Keyed(t.nodes[k]) && k in t.manifest.entries && t.tips[k] == t.manifest.entries[k].artifact
  {
    if k == w.target {
      StoreKeyed(s, k);
      KeyedWritten(StoreOf(s, k), CrownNode(h, w, b[n]));
    } else {
      assert k in s.tips && t.nodes[k] == s.nodes[k];
    }
  }

  lemma WonLineage(h: Hashes, s: State, x: Input, w: Candidate, t: State, b: seq<Event>, n: int)
    requires LineageOk(s) && Won(h, s, x, w, t, b, n)
    ensures LineageOk(t)
  {
    forall k ensures k in t.tips <==> LastCrown(t.events, k).Some? { WonCrown(h, s, x, w, t, b, n, k); }
    forall k | k in t.tips
      ensures L.Keyed(t.nodes[k]) && k in t.manifest.entries && t.tips[k] == t.manifest.entries[k].artifact
    {
      WonTips(h, s, x, w, t, b, n, k);
    }
  }

  lemma KeyedWritten(store: L.Store, node: L.Node)
    requires L.Keyed(store) && node.artifact != "" && node.speedup > 1.0
    ensures L.Keyed(L.Written(store, node))
  {
  }

  /** Every round keeps the invariant. */
  lemma NextInv(h: Hashes, g: State, s: State, x: Input, t: State)
    requires CollisionFree(h) && Inv(h, g, s) && Next(h, s, x, t)
    ensures Inv(h, g, t)
  {
    var b := PlanOf(h, RoundOf(h, s, x), x.rows).value.events;
    match WinnerOf(h, RoundOf(h, s, x), x.rows) {
      case None =>
        RoundLost(h, s, x, t);
        LostKeeps(h, g, s, t, b);
      case Some(w) =>
        var n := CrownAt(h, RoundOf(h, s, x), x.rows);
        RoundWon(h, s, x, t, w);
        WonJournal(h, g, s, x, w, t, b, n);
        WonEntries(h, g, s, x, w, t, b, n);
        WonLineage(h, s, x, w, t, b, n);
    }
  }

  // ----- whole runs

  ghost predicate StepAt(h: Hashes, states: seq<State>, inputs: seq<Input>, i: nat)
    requires i < |inputs| && i + 1 < |states|
  {
    Next(h, states[i], inputs[i], states[i + 1])
  }

  ghost predicate Run(h: Hashes, states: seq<State>, inputs: seq<Input>) {
    && |states| == |inputs| + 1 && Genesis(states[0])
    && forall i :: 0 <= i < |inputs| ==> StepAt(h, states, inputs, i)
  }

  lemma StepInv(h: Hashes, states: seq<State>, inputs: seq<Input>, i: nat)
    requires CollisionFree(h) && Run(h, states, inputs) && i < |inputs| && Inv(h, states[0], states[i])
    ensures Inv(h, states[0], states[i + 1])
  {
    assert StepAt(h, states, inputs, i);
    NextInv(h, states[0], states[i], inputs[i], states[i + 1]);
  }

  /** Over every run the journal is one chain replaying to the stack, and entries follow the crowns. */
  lemma {:induction false} RunInv(h: Hashes, states: seq<State>, inputs: seq<Input>, i: nat)
    requires CollisionFree(h) && Run(h, states, inputs) && i < |states|
    ensures Inv(h, states[0], states[i])
    decreases i
  {
    if i == 0 {
      GenesisInv(h, states[0]);
    } else {
      RunInv(h, states, inputs, i - 1);
      StepInv(h, states, inputs, i - 1);
    }
  }

  ghost predicate SameEntry(s: Manifest, t: Manifest, k: string) {
    (k in s.entries <==> k in t.entries) && (k in s.entries ==> s.entries[k] == t.entries[k])
  }

  /** Composition keeps every entry but the winner's. */
  lemma ComposedKeeps(s: Manifest, w: Candidate, t: Manifest, k: string)
    requires w.target in w.proposed.entries && Composed(s, w, t)
    ensures k != w.target ==> SameEntry(s, t, k)
    ensures w.target in t.entries && t.entries[w.target] == w.proposed.entries[w.target]
  {
  }

  lemma WonComposes(h: Hashes, s: State, x: Input, t: State, w: Candidate)
    requires CollisionFree(h) && Next(h, s, x, t) && WinnerOf(h, RoundOf(h, s, x), x.rows) == Some(w)
    ensures w.target in w.proposed.entries && Composed(s.manifest, w, t.manifest)
  {
    RoundWon(h, s, x, t, w);
  }

  lemma LostKeepsStack(h: Hashes, s: State, x: Input, t: State)
    requires Next(h, s, x, t) && WinnerOf(h, RoundOf(h, s, x), x.rows) == None
    ensures t.manifest == s.manifest
  {
    RoundLost(h, s, x, t);
  }

  lemma WonByBest(h: Hashes, s: State, x: Input, w: Candidate)
    requires Accepted(h, s, x) && WinnerOf(h, RoundOf(h, s, x), x.rows) == Some(w)
    ensures Best(h, RoundOf(h, s, x), x.rows, w)
  {
    WinnerIsBest(h, RoundOf(h, s, x), x.rows);
  }

  /** An entry changes only in a round its own target's candidate wins, and becomes that contribution. */
  lemma EntryChangesOnlyByWin(h: Hashes, s: State, x: Input, t: State, k: string)
    requires CollisionFree(h) && Next(h, s, x, t) && !SameEntry(s.manifest, t.manifest, k)
    ensures exists w :: Best(h, RoundOf(h, s, x), x.rows, w) && w.target == k &&
              k in t.manifest.entries && t.manifest.entries[k] == w.proposed.entries[k]
  {
    match WinnerOf(h, RoundOf(h, s, x), x.rows) {
      case None => LostKeepsStack(h, s, x, t);
      case Some(w) =>
        WonComposes(h, s, x, t, w);
        ComposedKeeps(s.manifest, w, t.manifest, k);
        WonByBest(h, s, x, w);
    }
  }

  // ----- lineages over runs

  /** The crowned artifact is new to the path it joins. */
  ghost predicate FreshCrown(x: Input, w: Candidate)
    requires w.target in w.proposed.entries
  {
    var node := L.Node(Replacement(w).artifact, BaselineArtifact(w), w.Speedup(), "");
    if w.target in x.tips then L.FreshWinner(x.tips[w.target], node) else node.artifact != node.parent
  }

  /** The lineage of the crowned target once it reopens. */
  function CrownedPath(h: Hashes, x: Input, w: Candidate, crown: Event): TargetLineage
    requires w.target in w.proposed.entries
  {
    var node := CrownNode(h, w, crown);
    if w.target in x.tips then L.Replaced(x.tips[w.target], node) else [node]
  }

  lemma FreshAnyEvent(nodes: TargetLineage, node: L.Node, event: string)
    ensures L.FreshWinner(nodes, node) == L.FreshWinner(nodes, node.(event := event))
  {
  }

  lemma FirstCrownOpens(node: L.Node)
    ensures node.artifact != node.parent ==> L.StoredPath(L.Written(map[], node), node.artifact, [node])
    ensures node.artifact == node.parent ==> forall p :: !L.StoredPath(L.Written(map[], node), node.artifact, p)
  {
    var store := L.Written(map[], node);
    if node.artifact == node.parent {
      forall p: seq<L.Node> ensures !L.StoredPath(store, node.artifact, p) {
        assert p != [] && L.Stored(store, p) ==> p[0] == node;
      }
    }
  }

  /** What the crown changes in the tables of its target, and what the winner cleared. */
  lemma WonTables(h: Hashes, s: State, x: Input, w: Candidate, t: State, b: seq<Event>, n: int)
    requires LineageOk(s) && Reopened(s, x.tips) && Won(h, s, x, w, t, b, n)
    ensures t.nodes[w.target] == L.Written(StoreOf(s, w.target), CrownNode(h, w, b[n]))
    ensures t.tips[w.target] == Replacement(w).artifact
    ensures w.target !in x.tips ==> StoreOf(s, w.target) == map[]
    ensures w.target in x.tips ==>
      L.Keyed(StoreOf(s, w.target)) && L.StoredPath(StoreOf(s, w.target), s.tips[w.target], x.tips[w.target]) &&
      L.Clears(x.tips[w.target], BaselineArtifact(w), w.Speedup())
  {
  }

  ghost predicate Opens(store: L.Store, tip: string) {
    exists p :: L.StoredPath(store, tip, p)
  }

  lemma NextCrownOpens(store: L.Store, tip: string, nodes: TargetLineage, node: L.Node)
    requires L.Keyed(store) && L.StoredPath(store, tip, nodes) && node.speedup > 1.0 &&
      L.Clears(nodes, node.parent, node.speedup)
    ensures L.FreshWinner(nodes, node.(event := "")) <==> Opens(L.Written(store, node), node.artifact)
    ensures L.FreshWinner(nodes, node.(event := "")) ==>
      L.StoredPath(L.Written(store, node), node.artifact, L.Replaced(nodes, node)) &&
      L.Product(L.Replaced(nodes, node)) > L.Product(nodes)
  {
    FreshAnyEvent(nodes, node, "");
    L.ReopensIffFresh(store, tip, nodes, node);
  }

  /** The crowned target's rows reopen exactly when the artifact is fresh, as the kept prefix and the winner. */
  lemma CrownOpensIffFresh(h: Hashes, s: State, x: Input, w: Candidate, t: State, b: seq<Event>, n: int)
    requires LineageOk(s) && Reopened(s, x.tips) && Won(h, s, x, w, t, b, n)
    ensures FreshCrown(x, w) <==> Opens(t.nodes[w.target], t.tips[w.target])
    ensures FreshCrown(x, w) ==> L.StoredPath(t.nodes[w.target], t.tips[w.target], CrownedPath(h, x, w, b[n]))
    ensures FreshCrown(x, w) && w.target in x.tips ==>
      L.Product(CrownedPath(h, x, w, b[n])) > L.Product(x.tips[w.target])
  {
    WonTables(h, s, x, w, t, b, n);
    if w.target in x.tips {
      NextCrownOpens(StoreOf(s, w.target), s.tips[w.target], x.tips[w.target], CrownNode(h, w, b[n]));
    } else {
      FirstCrownOpens(CrownNode(h, w, b[n]));
    }
  }

  lemma ReopenedUpdate(
    s: State, tips: map<string, TargetLineage>, t: State, k: string, store: L.Store, tip: string, path: TargetLineage)
    requires Reopened(s, tips) && t.nodes == s.nodes[k := store] && t.tips == s.tips[k := tip]
    requires L.StoredPath(store, tip, path)
    ensures Reopened(t, tips[k := path])
  {
  }

  lemma OpensWhenFresh(h: Hashes, s: State, x: Input, w: Candidate, t: State, b: seq<Event>, n: int)
    requires LineageOk(s) && Reopened(s, x.tips) && Won(h, s, x, w, t, b, n) && FreshCrown(x, w)
    ensures Reopened(t, x.tips[w.target := CrownedPath(h, x, w, b[n])])
  {
    CrownOpensIffFresh(h, s, x, w, t, b, n);
    ReopenedUpdate(s, x.tips, t, w.target, t.nodes[w.target], t.tips[w.target], CrownedPath(h, x, w, b[n]));
  }

  lemma FreshWhenOpens(
    h: Hashes, s: State, x: Input, w: Candidate, t: State, b: seq<Event>, n: int, tips: map<string, TargetLineage>)
    requires LineageOk(s) && Reopened(s, x.tips) && Won(h, s, x, w, t, b, n) && Reopened(t, tips)
    ensures FreshCrown(x, w)
  {
    CrownOpensIffFresh(h, s, x, w, t, b, n);
    assert L.StoredPath(t.nodes[w.target], t.tips[w.target], tips[w.target]);
  }

  /** After a round the lineages reopen exactly when the crowned artifact is fresh. */
  lemma NextReopensIff(h: Hashes, g: State, s: State, x: Input, t: State, w: Candidate)
    requires CollisionFree(h) && Inv(h, g, s) && Next(h, s, x, t)
    requires WinnerOf(h, RoundOf(h, s, x), x.rows) == Some(w) && Qualified(w)
    ensures FreshCrown(x, w) <==> exists tips :: Reopened(t, tips)
  {
    var b, n := PlanOf(h, RoundOf(h, s, x), x.rows).value.events, CrownAt(h, RoundOf(h, s, x), x.rows);
    RoundWon(h, s, x, t, w);
    if FreshCrown(x, w) {
      OpensWhenFresh(h, s, x, w, t, b, n);
    } else {
      forall tips ensures !Reopened(t, tips) {
        if Reopened(t, tips) { FreshWhenOpens(h, s, x, w, t, b, n, tips); }
      }
    }
  }

  /** A candidate measured on the stack `s` that offers `ref` for its target. */
  function Offering(s: State, ref: Ref, tree: string): Candidate {
    Candidate("reservation", 0, 0, 0, "hotkey", ref.target, [ref.target], ref.delta, "evidence", 2.0, None,
              s.manifest, s.tree, WithContribution(s.manifest, ref), tree)
  }

  lemma OfferingQualified(s: State, ref: Ref, tree: string)
    requires KeyedManifest(s.manifest) && ref.artifact != ""
    ensures Qualified(Offering(s, ref, tree))
  {
  }

  lemma SoleOffer(h: Hashes, r: Round, w: Candidate)
    requires Qualified(w) && Eligible(h, r, w)
    ensures Targeted([w]) && (forall i, j :: !Repeats(h, [w], i, j)) && Best(h, r, [w], w)
  {
  }

  lemma OfferingAccepted(h: Hashes, s: State, ref: Ref, tree: string)
    requires CollisionFree(h) && Genesis(s) && ref.artifact != ""
    requires ref.target in s.manifest.entries && ref != s.manifest.entries[ref.target]
    ensures var w := Offering(s, ref, tree); var x := Input([w], None, map[]);
            Accepted(h, s, x) && WinnerOf(h, RoundOf(h, s, x), x.rows) == Some(w)
  {
    var w := Offering(s, ref, tree);
    var x := Input([w], None, map[]);
    var r := RoundOf(h, s, x);
    OfferingQualified(s, ref, tree);
    SoleOffer(h, r, w);
    assert WithContribution(s.manifest, ref).entries[ref.target] == ref;
    forall v | Best(h, r, [w], v) ensures v == w { BestUnique(h, r, [w], v, w); }
    PlanRefusedIff(h, r, [w]);
    WinnerIsBest(h, r, [w]);
  }

  lemma OfferingStale(s: State, ref: Ref, tree: string)
    requires ref.target in s.manifest.entries && ref.artifact == s.manifest.entries[ref.target].artifact
    ensures !FreshCrown(Input([Offering(s, ref, tree)], None, map[]), Offering(s, ref, tree))
  {
  }

  lemma FirstRound(h: Hashes, s: State, x: Input, t: State)
    requires Genesis(s) && Next(h, s, x, t)
    ensures Run(h, [s, t], [x])
  {
    assert StepAt(h, [s, t], [x], 0);
  }

  lemma SomeNext(h: Hashes, s: State, x: Input) returns (t: State)
    requires Accepted(h, s, x)
    ensures Next(h, s, x, t)
  {
    AcceptedCommits(h, s, x);
    t :| Next(h, s, x, t);
  }

  lemma StaleCloses(h: Hashes, s: State, x: Input, t: State, w: Candidate, tips: map<string, TargetLineage>)
    requires CollisionFree(h) && Genesis(s) && Next(h, s, x, t) && Qualified(w)
    requires WinnerOf(h, RoundOf(h, s, x), x.rows) == Some(w) && !FreshCrown(x, w)
    ensures !Reopened(t, tips)
  {
    GenesisInv(h, s);
    NextReopensIff(h, s, s, x, t, w);
  }

  /** From any genesis stack with an entry, crowning that entry's artifact again is accepted and closes the lineage. */
  lemma StaleCrownRound(h: Hashes, s: State, ref: Ref, tree: string) returns (x: Input, t: State)
    requires CollisionFree(h) && Genesis(s) && ref.target in s.manifest.entries && ref != s.manifest.entries[ref.target]
    requires ref.artifact == s.manifest.entries[ref.target].artifact
    ensures Run(h, [s, t], [x]) && forall tips :: !Reopened(t, tips)
  {
    var w := Offering(s, ref, tree);
    x := Input([w], None, map[]);
    OfferingQualified(s, ref, tree);
    OfferingAccepted(h, s, ref, tree);
    OfferingStale(s, ref, tree);
    t := SomeNext(h, s, x);
    FirstRound(h, s, x, t);
    forall tips ensures !Reopened(t, tips) { StaleCloses(h, s, x, t, w, tips); }
  }

  lemma SamePath(store: L.Store, tip: string, p: seq<L.Node>, q: seq<L.Node>)
    requires L.StoredPath(store, tip, p) && L.StoredPath(store, tip, q)
    ensures p == q
  {
    if |p| <= |q| { L.PathUnique(store, tip, p, q); } else { L.PathUnique(store, tip, q, p); }
  }

  ghost predicate CrownedIn(h: Hashes, s: State, x: Input, k: string) {
    var w := WinnerOf(h, RoundOf(h, s, x), x.rows);
    w.Some? && w.value.target == k
  }

  /** What happened to a lineage between two rounds. */
  ghost predicate Advanced(was: map<string, TargetLineage>, now: map<string, TargetLineage>, k: string, crowned: bool)
    requires k in was
  {
    k in now && if crowned then L.Product(now[k]) > L.Product(was[k]) else now[k] == was[k]
  }

  lemma CrownedProgress(
    h: Hashes, s: State, x: Input, w: Candidate, t: State, b: seq<Event>, n: int, tips: map<string, TargetLineage>)
    requires LineageOk(s) && Reopened(s, x.tips) && Won(h, s, x, w, t, b, n) && Reopened(t, tips) && w.target in x.tips
    ensures Advanced(x.tips, tips, w.target, true)
  {
    var k := w.target;
    CrownOpensIffFresh(h, s, x, w, t, b, n);
    assert L.StoredPath(t.nodes[k], t.tips[k], tips[k]);
    SamePath(t.nodes[k], t.tips[k], tips[k], CrownedPath(h, x, w, b[n]));
  }

  /** Unchanged rows reopen as the same path. */
  lemma OtherKept(
    s: State, was: map<string, TargetLineage>, t: State, now: map<string, TargetLineage>, other: string, store: L.Store,
    tip: string, k: string)
    requires Reopened(s, was) && Reopened(t, now) && k in was && k != other
    requires t.nodes == s.nodes[other := store] && t.tips == s.tips[other := tip]
    ensures Advanced(was, now, k, false)
  {
    SamePath(s.nodes[k], s.tips[k], now[k], was[k]);
  }

  lemma WonProgress(
    h: Hashes, s: State, x: Input, w: Candidate, t: State, b: seq<Event>, n: int, tips: map<string, TargetLineage>,
    k: string)
    requires LineageOk(s) && Reopened(s, x.tips) && Won(h, s, x, w, t, b, n) && Reopened(t, tips) && k in x.tips
    ensures Advanced(x.tips, tips, k, k == w.target)
  {
    if k == w.target {
      CrownedProgress(h, s, x, w, t, b, n, tips);
    } else {
      OtherKept(s, x.tips, t, tips, w.target, t.nodes[w.target], t.tips[w.target], k);
    }
  }

  /** A crown strictly raises its target's root-to-tip product; every other lineage is unchanged. */
  lemma LineageProgress(h: Hashes, g: State, s: State, x: Input, t: State, tips: map<string, TargetLineage>, k: string)
    requires CollisionFree(h) && Inv(h, g, s) && Next(h, s, x, t) && Reopened(t, tips) && k in x.tips
    ensures Advanced(x.tips, tips, k, CrownedIn(h, s, x, k))
  {
    var r := RoundOf(h, s, x);
    var b := PlanOf(h, r, x.rows).value.events;
    match WinnerOf(h, r, x.rows) {
      case None =>
        RoundLost(h, s, x, t);
        SamePath(s.nodes[k], s.tips[k], tips[k], x.tips[k]);
      case Some(w) =>
        RoundWon(h, s, x, t, w);
        WonProgress(h, s, x, w, t, b, CrownAt(h, r, x.rows), tips, k);
    }
  }

  lemma RunStep(h: Hashes, states: seq<State>, inputs: seq<Input>, m: nat, k: string)
    requires CollisionFree(h) && Run(h, states, inputs) && m + 1 < |inputs| && k in inputs[m].tips
    ensures Advanced(inputs[m].tips, inputs[m + 1].tips, k, CrownedIn(h, states[m], inputs[m], k))
  {
    RunInv(h, states, inputs, m);
    assert StepAt(h, states, inputs, m) && StepAt(h, states, inputs, m + 1);
    LineageProgress(h, states[0], states[m], inputs[m], states[m + 1], inputs[m + 1].tips, k);
  }

  ghost predicate CrownedBetween(h: Hashes, states: seq<State>, inputs: seq<Input>, i: nat, j: nat, k: string)
    requires j <= |states| && j <= |inputs|
  {
    exists m :: i <= m < j && CrownedIn(h, states[m], inputs[m], k)
  }

  lemma AdvancedTwice(
    a: map<string, TargetLineage>, b: map<string, TargetLineage>, c: map<string, TargetLineage>, k: string, p: bool,
    q: bool)
    requires k in a && Advanced(a, b, k, p) && Advanced(b, c, k, q)
    ensures Advanced(a, c, k, p || q)
  {
  }

  ghost predicate AdvancesAt(tips: seq<map<string, TargetLineage>>, crowned: seq<bool>, m: nat, k: string)
    requires m + 1 < |tips| && m < |crowned|
  {
    k in tips[m] ==> Advanced(tips[m], tips[m + 1], k, crowned[m])
  }

  lemma {:induction false} AdvancedAlong(
    tips: seq<map<string, TargetLineage>>, crowned: seq<bool>, i: nat, j: nat, k: string)
    requires i <= j < |tips| && j <= |crowned| && k in tips[i]
    requires forall m :: i <= m < j ==> AdvancesAt(tips, crowned, m, k)
    ensures Advanced(tips[i], tips[j], k, true in crowned[i..j])
    decreases j
  {
    if i < j {
      AdvancedAlong(tips, crowned, i, j - 1, k);
      assert AdvancesAt(tips, crowned, j - 1, k);
      AdvancedTwice(tips[i], tips[j - 1], tips[j], k, true in crowned[i..j - 1], crowned[j - 1]);
      assert crowned[i..j] == crowned[i..j - 1] + [crowned[j - 1]];
    }
  }

  function TipsOf(inputs: seq<Input>): seq<map<string, TargetLineage>> {
    seq(|inputs|, m requires 0 <= m < |inputs| => inputs[m].tips)
  }

  ghost function CrownsOf(h: Hashes, states: seq<State>, inputs: seq<Input>, k: string): seq<bool>
    requires |inputs| <= |states|
  {
    seq(|inputs|, m requires 0 <= m < |inputs| => CrownedIn(h, states[m], inputs[m], k))
  }

  lemma CrownedAmong(h: Hashes, states: seq<State>, inputs: seq<Input>, i: nat, j: nat, k: string)
    requires i <= j <= |inputs| <= |states|
    ensures CrownedBetween(h, states, inputs, i, j, k) <==> true in CrownsOf(h, states, inputs, k)[i..j]
  {
    var crowned := CrownsOf(h, states, inputs, k)[i..j];
    if m :| i <= m < j && CrownedIn(h, states[m], inputs[m], k) { assert crowned[m - i]; }
    if n :| 0 <= n < |crowned| && crowned[n] { assert CrownedIn(h, states[i + n], inputs[i + n], k); }
  }

  lemma RunAdvances(h: Hashes, states: seq<State>, inputs: seq<Input>, m: nat, k: string)
    requires CollisionFree(h) && Run(h, states, inputs) && m + 1 < |inputs|
    ensures AdvancesAt(TipsOf(inputs), CrownsOf(h, states, inputs, k), m, k)
  {
    if k in inputs[m].tips { RunStep(h, states, inputs, m, k); }
  }

  /** Along a run a target's product never falls, and rises exactly when it is crowned. */
  lemma RunProgress(h: Hashes, states: seq<State>, inputs: seq<Input>, i: nat, j: nat, k: string)
    requires CollisionFree(h) && Run(h, states, inputs) && i <= j < |inputs| && k in inputs[i].tips
    ensures Advanced(inputs[i].tips, inputs[j].tips, k, CrownedBetween(h, states, inputs, i, j, k))
  {
    var tips, crowned := TipsOf(inputs), CrownsOf(h, states, inputs, k);
    forall m | i <= m < j ensures AdvancesAt(tips, crowned, m, k) { RunAdvances(h, states, inputs, m, k); }
    AdvancedAlong(tips, crowned, i, j, k);
    CrownedAmong(h, states, inputs, i, j, k);
  }

  // ----- tampering shows

  lemma ChainedPrefix(h: Hashes, a: seq<Event>, m: nat)
    requires Chained(h, a, 0, "") && m <= |a|
    ensures Chained(h, a[..m], 0, "")
  {
    forall i | 0 <= i < m
      ensures a[..m][i].sequence == i && a[..m][i].previous == Head(h, a[..m][..i], "")
    {
      assert a[..m][i] == a[i] && a[..m][..i] == a[..i];
    }
  }

  /** Equal heads of non-empty chains: the last events are equal, and so are the heads before them. */
  lemma HeadStep(h: Hashes, a: seq<Event>, m: nat, b: seq<Event>, n: nat)
    requires CollisionFree(h) && Chained(h, a, 0, "") && Chained(h, b, 0, "") && |a| == m + 1 && |b| == n + 1
    requires Head(h, a, "") == Head(h, b, "")
    ensures a[m] == b[n] && Head(h, a[..m], "") == Head(h, b[..n], "")
  {
    assert SameDigest(h.event, a[m], b[n]);
    assert Head(h, a[..m], "") == a[m].previous && Head(h, b[..n], "") == b[n].previous;
  }

  lemma SameEmptiness(h: Hashes, a: seq<Event>, b: seq<Event>)
    requires CollisionFree(h) && Head(h, a, "") == Head(h, b, "")
    ensures a == [] <==> b == []
  {
  }

  lemma LastSplit(a: seq<Event>)
    requires a != []
    ensures a == a[..|a| - 1] + [a[|a| - 1]]
  {
  }

  /** The journal head determines the whole journal. */
  lemma {:induction false} HeadDetermines(h: Hashes, a: seq<Event>, b: seq<Event>)
    requires CollisionFree(h) && Chained(h, a, 0, "") && Chained(h, b, 0, "")
    requires Head(h, a, "") == Head(h, b, "")
    ensures a == b
  {
    SameEmptiness(h, a, b);
    if a != [] {
      var m, n := |a| - 1, |b| - 1;
      HeadStep(h, a, m, b, n);
      ChainedPrefix(h, a, m);
      ChainedPrefix(h, b, n);
      HeadDetermines(h, a[..m], b[..n]);
      LastSplit(a);
      LastSplit(b);
    }
  }
}
