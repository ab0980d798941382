/** The card of a request, told from the findings and from the payload its columns were spread from. */
module CardTold {
  import opened Lists
  import opened Strings
  import opened ReadSide
  import opened Sorting
  import opened Card
  import opened CardFacts
  import Spread

  // Findings

  /** The finding belongs to the phase of the event, or one of the two names none. */
  predicate InPhase(phase: string, f: Finding) {
    phase == "" || f.phase == "" || f.phase == phase
  }

  /** A finding to show under a name. */
  function ShownUnder(phase: string, name: string): Finding -> bool {
    (f: Finding) => InPhase(phase, f) && f.inspector == name && !f.clean
  }

  lemma {:induction false} MinePlaces(findings: seq<Finding>, phase: string, name: string) returns (at: seq<nat>)
    ensures PlacesOf(findings, ShownUnder(phase, name), at)
    ensures var mine := Mine(Filtered(findings, OfPhase(phase)), name);
            |mine| == |at| && forall k :: 0 <= k < |at| ==> at[k] < |findings| && mine[k] == findings[at[k]]
  {
    hide Mine, PlacesOf, Filtered;
    if findings == [] {
      at := [];
      Lists.NoPlaces(findings, ShownUnder(phase, name));
      NothingMine(phase, name);
    } else {
      var init, last := findings[..|findings| - 1], findings[|findings| - 1];
      assert findings == init + [last];
      at := MinePlaces(init, phase, name);
      FilteredSnoc(init, last, OfPhase(phase));
      MineStep(Filtered(init, OfPhase(phase)), last, name);
      PlacesSnoc(init, last, ShownUnder(phase, name), at);
      at := if ShownUnder(phase, name)(last) then at + [|init|] else at;
    }
  }

  lemma NothingMine(phase: string, name: string)
    ensures Mine(Filtered([], OfPhase(phase)), name) == []
  {
    assert Filtered<Finding>([], OfPhase(phase)) == [] && Filtered<Finding>([], Dirty) == [];
    assert Filtered<Finding>([], By(name)) == [];
  }

  /** A participant is shown with the findings it reported in the phase that are not clean: all of them, in
      the order they came, and no others. */
  lemma FindingsTold(ev: Event, rewrites: map<string, Spread.Rewrite>, findings: seq<Finding>, i: nat)
    returns (at: seq<nat>)
    requires i < |Items(ev, rewrites, Filtered(findings, OfPhase(ev.phase)))|
    ensures var p := Items(ev, rewrites, Filtered(findings, OfPhase(ev.phase)))[i];
            && PlacesOf(findings, ShownUnder(ev.phase, p.name), at)
            && |p.findings| == |at|
            && forall k :: 0 <= k < |at| ==> at[k] < |findings| && p.findings[k] == findings[at[k]]
  {
    hide Items, Mine, PlacesOf, Filtered, Roster;
    var fs := Filtered(findings, OfPhase(ev.phase));
    CardArranged(ev, rewrites, fs);
    at := MinePlaces(findings, ev.phase, Items(ev, rewrites, fs)[i].name);
  }

  /** And everything reported in the phase that is not clean stands under its inspector. */
  lemma EveryoneShown(ev: Event, rewrites: map<string, Spread.Rewrite>, findings: seq<Finding>, f: Finding)
    requires f in findings && InPhase(ev.phase, f) && !f.clean
    ensures exists p :: p in Items(ev, rewrites, Filtered(findings, OfPhase(ev.phase))) &&
              p.name == f.inspector && f in p.findings
  {
    hide Items, Mine, Filtered, Roster, OrphanNames;
    var fs := Filtered(findings, OfPhase(ev.phase));
    FilteredMembers(findings, OfPhase(ev.phase));
    OrderFacts(ev, fs);
    ItemsLength(ev, rewrites, fs);
    var names := Order(ev, fs);
    var i :| 0 <= i < |names| && names[i] == f.inspector;
    ItemAt(ev, rewrites, fs, i);
    MineMembers(fs, f.inspector);
    assert Items(ev, rewrites, fs)[i] in Items(ev, rewrites, fs);
  }

  // What else is shown of a participant

  /** The profile the findings give: that of the first one that names one. */
  lemma {:induction false} ProfileIsFirst(fs: seq<Finding>, name: string)
    ensures ProfileOf(fs, name) == "" <==> forall f :: f in fs && f.inspector == name ==> f.profile == ""
    ensures ProfileOf(fs, name) != "" ==>
              exists i :: 0 <= i < |fs| && fs[i].inspector == name && fs[i].profile == ProfileOf(fs, name) &&
                forall j :: 0 <= j < i && fs[j].inspector == name ==> fs[j].profile == ""
  {
    if fs != [] {
      var init, last := fs[..|fs| - 1], fs[|fs| - 1];
      assert fs == init + [last];
      ProfileIsFirst(init, name);
      ProfileSnoc(init, last, name);
      if ProfileOf(init, name) != "" {
        var i :| 0 <= i < |init| && init[i].inspector == name && init[i].profile == ProfileOf(init, name) &&
                 forall j :: 0 <= j < i && init[j].inspector == name ==> init[j].profile == "";
        assert fs[i] == init[i] && forall j :: 0 <= j < i ==> fs[j] == init[j];
      } else {
        assert forall j :: 0 <= j < |init| ==> init[j] in init && fs[j] == init[j];
        assert fs[|init|] == last;
      }
    }
  }

  lemma ColumnShows<T>(items: map<string, Spread.Entry>, field: Spread.Entry -> Maybe<T>, name: string, zero: T)
    requires name in items
    ensures Get(Spread.Column(items, field), name, zero) ==
            if field(items[name]).Just? then field(items[name]).value else zero
  {
  }

  /** A participant of the roster shows what its own entry of the payload says, text by text and number by
      number; it is decisive if the event names it as the author, and its profile is the one of the entry, or
      if that is silent the first one its findings name. */
  lemma SeatTold(ev: Event, items: map<string, Spread.Entry>, order: seq<string>, again: seq<string>,
                 rewrites: map<string, Spread.Rewrite>, fs: seq<Finding>, name: string)
    requires Spread.Enumerates(order, items) && Spread.Enumerates(again, Spread.Column(items, Spread.Rewritten))
    requires ev.columns == Spread.ColumnsOf(items, order, again) && name in items
    ensures var p, e := Seat(ev, rewrites, fs, name), items[name];
            && p.name == name && p.verdict == e.verdict && p.state == e.state && p.role == e.role
            && p.score == (if e.score.Just? then e.score.value else 0)
            && p.latency == (if e.latency.Just? then e.latency.value else 0.0)
            && (p.decisive <==> name == ev.author) && (p.self <==> name == "module") && !p.orphan
            && (e.profile != "" ==> p.profile == e.profile)
            && (e.profile == "" ==> p.profile == ProfileOf(fs, name))
            && p.engineMs == EngineOf(fs, name)
            && (name in rewrites ==> p.rewrite == Just(rewrites[name])) && (name !in rewrites ==> p.rewrite == Nothing)
  {
    hide ProfileOf, EngineOf, Mine, ReportedClean, Sorted, Spread.ObjectText, Spread.Column, Get, Filtered;
    ColumnShows(items, Spread.Verdict, name, "");
    ColumnShows(items, Spread.State, name, "");
    ColumnShows(items, Spread.Score, name, 0);
    ColumnShows(items, Spread.Latency, name, 0.0);
    ColumnShows(items, Spread.Role, name, "");
    ColumnShows(items, Spread.Profile, name, "");
  }

  /** The seats of the card are those of its roster, in order. */
  lemma SeatIsItem(ev: Event, rewrites: map<string, Spread.Rewrite>, fs: seq<Finding>, i: nat)
    requires i < |Items(ev, rewrites, fs)|
    ensures i < |Roster(ev)| ==> Items(ev, rewrites, fs)[i] == Seat(ev, rewrites, fs, Roster(ev)[i])
    ensures i >= |Roster(ev)| ==>
              var p := Items(ev, rewrites, fs)[i];
              && p.orphan && !p.self && !p.decisive && !p.clean
              && p.verdict == "" && p.state == "" && p.role == "" && p.score == 0 && p.latency == 0.0
              && p.engineMs == EngineOf(fs, p.name) && p.profile == ProfileOf(fs, p.name) && p.rewrite == Nothing
  {
    hide Seat, Roster, OrphanNames, EngineOf, ProfileOf, Mine;
    ItemAt(ev, rewrites, fs, i);
  }

  // Actions

  /** Report j of finding i gives an outcome for the key. */
  predicate Gives(fs: seq<Finding>, key: ActionKey, at: (nat, nat)) {
    at.0 < |fs| && at.1 < |fs[at.0].said| && fs[at.0].said[at.1].key == key && fs[at.0].said[at.1].outcome != ""
  }

  predicate PlaceBefore(a: (nat, nat), b: (nat, nat)) {
    a.0 < b.0 || (a.0 == b.0 && a.1 < b.1)
  }

  ghost predicate GivenAt(fs: seq<Finding>, key: ActionKey, at: seq<(nat, nat)>) {
    && (forall k :: 0 <= k < |at| ==> Gives(fs, key, at[k]))
    && (forall j, k :: 0 <= j < k < |at| ==> PlaceBefore(at[j], at[k]))
    && (forall p :: Gives(fs, key, p) ==> p in at)
  }

  lemma {:induction false} ReportedPlaces(inspector: string, said: seq<WireAction>, key: ActionKey)
    returns (at: seq<nat>)
    ensures PlacesOf(said, Reports(key), at) && |Reported(inspector, said, key)| == |at|
    ensures forall k :: 0 <= k < |at| ==>
              at[k] < |said| &&
              Reported(inspector, said, key)[k] == Outcome.Outcome(inspector, said[at[k]].outcome, said[at[k]].took)
  {
    hide PlacesOf, Reported;
    if said == [] {
      at := [];
      Lists.NoPlaces(said, Reports(key));
      NothingReported(inspector, key);
    } else {
      var init, last := said[..|said| - 1], said[|said| - 1];
      assert said == init + [last];
      at := ReportedPlaces(inspector, init, key);
      ReportedSnoc(inspector, init, last, key);
      PlacesSnoc(init, last, Reports(key), at);
      at := if Reports(key)(last) then at + [|init|] else at;
    }
  }

  function Reports(key: ActionKey): WireAction -> bool {
    (a: WireAction) => a.key == key && a.outcome != ""
  }

  lemma NothingReported(inspector: string, key: ActionKey)
    ensures Reported(inspector, [], key) == [] && OutcomesOf([], key) == []
  {
  }

  lemma ReportedSnoc(inspector: string, said: seq<WireAction>, a: WireAction, key: ActionKey)
    ensures Reported(inspector, said + [a], key) ==
            Reported(inspector, said, key) +
            if a.outcome != "" && a.key == key then [Outcome.Outcome(inspector, a.outcome, a.took)] else []
  {
    assert (said + [a])[..|said|] == said;
  }

  function InFinding(i: nat, at: seq<nat>): (r: seq<(nat, nat)>)
    ensures |r| == |at| && forall k :: 0 <= k < |at| ==> r[k] == (i, at[k])
  {
    seq(|at|, k requires 0 <= k < |at| => (i, at[k]))
  }

  lemma GivenSnoc(fs: seq<Finding>, f: Finding, key: ActionKey, at: seq<(nat, nat)>, more: seq<nat>)
    requires GivenAt(fs, key, at) && PlacesOf(f.said, Reports(key), more)
    ensures GivenAt(fs + [f], key, at + InFinding(|fs|, more))
  {
    var all, last := fs + [f], InFinding(|fs|, more);
    assert forall i :: 0 <= i < |fs| ==> all[i] == fs[i];
    forall p: (nat, nat) | Gives(all, key, p) ensures p in at + last {
      if p.0 < |fs| {
        assert Gives(fs, key, p);
      } else {
        assert p.1 in more;
        var k :| 0 <= k < |more| && more[k] == p.1;
        assert last[k] == p;
      }
    }
  }

  lemma {:induction false} OutcomePlaces(fs: seq<Finding>, key: ActionKey) returns (at: seq<(nat, nat)>)
    ensures GivenAt(fs, key, at) && |OutcomesOf(fs, key)| == |at|
    ensures forall k :: 0 <= k < |at| ==>
              Gives(fs, key, at[k]) &&
              var f := fs[at[k].0];
              OutcomesOf(fs, key)[k] == Outcome.Outcome(f.inspector, f.said[at[k].1].outcome, f.said[at[k].1].took)
  {
    hide PlacesOf, Reported, OutcomesOf, GivenAt;
    if fs == [] {
      at := [];
      NothingGiven(key);
    } else {
      var init, last := fs[..|fs| - 1], fs[|fs| - 1];
      assert fs == init + [last];
      at := OutcomePlaces(init, key);
      var more := ReportedPlaces(last.inspector, last.said, key);
      PlacesInside(last, key, more);
      GivenSnoc(init, last, key, at, more);
      OutcomesSnoc(init, last, key);
      at := at + InFinding(|init|, more);
    }
  }

  lemma NothingGiven(key: ActionKey)
    ensures GivenAt([], key, []) && OutcomesOf([], key) == []
  {
  }

  lemma PlacesInside(f: Finding, key: ActionKey, at: seq<nat>)
    requires PlacesOf(f.said, Reports(key), at)
    ensures forall k :: 0 <= k < |at| ==> Gives([f], key, (0, at[k]))
  {
  }

  lemma OutcomesSnoc(fs: seq<Finding>, f: Finding, key: ActionKey)
    ensures OutcomesOf(fs + [f], key) == OutcomesOf(fs, key) + Reported(f.inspector, f.said, key)
  {
    assert (fs + [f])[..|fs|] == fs;
  }

  /** An action is shown as it stands in the record, with every outcome the reports of the phase give for it:
      all of them, in the order of the findings and of the reports in them, each with its inspector. */
  lemma ActionTold(live: seq<WireAction>, fs: seq<Finding>, i: nat) returns (at: seq<(nat, nat)>)
    requires i < |live|
    ensures |ActionsShown(live, fs)| == |live|
    ensures var a, w := ActionsShown(live, fs)[i], live[i];
            && a.key == w.key && a.target == w.target && a.delta == w.delta && a.value == w.value
            && a.phase == w.phase && a.passive == w.passive
            && GivenAt(fs, w.key, at) && |a.outcomes| == |at|
            && forall k :: 0 <= k < |at| ==>
                 Gives(fs, w.key, at[k]) &&
                 var f := fs[at[k].0];
                 a.outcomes[k] == Outcome.Outcome(f.inspector, f.said[at[k].1].outcome, f.said[at[k].1].took)
  {
    hide OutcomesOf, GivenAt;
    at := OutcomePlaces(fs, live[i].key);
  }
}
