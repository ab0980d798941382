/** The card of a request: its inspectors and the findings they reported, joined in memory
    (internal/query/card.go). */
module Card {
  import opened Lists
  import opened Strings
  import opened ReadSide
  import opened Sorting
  import Spread

  /** What an action is known by; an engine repeats it in its report. */
  datatype ActionKey = ActionKey(from: string, todo: string, apply: string, code: string, marker: string)

  datatype WireAction = WireAction(key: ActionKey, target: string, delta: Maybe<int>, value: Maybe<int>,
                                   phase: string, passive: bool, outcome: string, took: Maybe<real>)

  datatype Outcome = Outcome(inspector: string, outcome: string, took: Maybe<real>)

  datatype Action = Action(key: ActionKey, target: string, delta: Maybe<int>, value: Maybe<int>, phase: string,
                           passive: bool, outcomes: seq<Outcome>)

  /** `said` holds the actions of the engine report, none if it is absent or malformed;
      `index` stands for the fields the join only copies. */
  datatype Finding = Finding(inspector: string, phase: string, clean: bool, engineMs: real, profile: string,
                             said: seq<WireAction>, index: nat)

  /** `actions` is likewise the decoded text of the column. */
  datatype Event = Event(phase: string, author: string, columns: Spread.Columns, actions: seq<WireAction>)

  datatype Participant = Participant(name: string, self: bool, decisive: bool, verdict: string, state: string,
                                     score: int, latency: real, engineMs: real, role: string, profile: string,
                                     clean: bool, rewrite: Maybe<Spread.Rewrite>, orphan: bool, findings: seq<Finding>)

  datatype Card = Card(phase: string, author: string, items: seq<Participant>, count: nat, actions: seq<Action>)

  // Phases

  predicate SamePhase(phase: string, f: Finding) {
    f.phase == "" || phase == "" || f.phase == phase
  }

  function OfPhase(phase: string): Finding -> bool {
    (f: Finding) => SamePhase(phase, f)
  }

  /** samePhase. */
  method FindingsOfPhase(phase: string, findings: seq<Finding>) returns (out: seq<Finding>)
    ensures out == Filtered(findings, OfPhase(phase))
  {
    if phase == "" {
      AllKept(findings, OfPhase(phase));
      return findings;
    }
    out := [];
    for i := 0 to |findings|
      invariant out == Filtered(findings[..i], OfPhase(phase))
    {
      assert findings[..i + 1] == findings[..i] + [findings[i]];
      FilteredSnoc(findings[..i], findings[i], OfPhase(phase));
      if findings[i].phase == "" || findings[i].phase == phase {
        out := out + [findings[i]];
      }
    }
    assert findings[..|findings|] == findings;
  }

  // What the findings of a phase say of one inspector

  predicate Dirty(f: Finding) { !f.clean }

  function By(name: string): Finding -> bool {
    (f: Finding) => f.inspector == name
  }

  /** Its findings, in order; a clean report is not one. */
  function Mine(fs: seq<Finding>, name: string): seq<Finding> {
    Filtered(Filtered(fs, Dirty), By(name))
  }

  function EngineOf(fs: seq<Finding>, name: string): real {
    if fs == [] then 0.0
    else
      var e, last := EngineOf(fs[..|fs| - 1], name), fs[|fs| - 1];
      if last.inspector == name && last.engineMs > e then last.engineMs else e
  }

  function ProfileOf(fs: seq<Finding>, name: string): string {
    if fs == [] then ""
    else
      var p, last := ProfileOf(fs[..|fs| - 1], name), fs[|fs| - 1];
      if p == "" && last.inspector == name then last.profile else p
  }

  predicate ReportedClean(fs: seq<Finding>, name: string) {
    exists f :: f in fs && f.inspector == name && f.clean
  }

  // The maps CardOf fills in one pass over the findings

  datatype Tally = Tally(byName: map<string, seq<Finding>>, engine: map<string, real>, clean: set<string>,
                         profiles: map<string, string>)

  ghost predicate ByNameOk(fs: seq<Finding>, m: map<string, seq<Finding>>) {
    forall n :: Get(m, n, []) == Mine(fs, n) && (n in m <==> Mine(fs, n) != [])
  }

  ghost predicate EngineOk(fs: seq<Finding>, m: map<string, real>) {
    forall n :: Get(m, n, 0.0) == EngineOf(fs, n)
  }

  ghost predicate ProfilesOk(fs: seq<Finding>, m: map<string, string>) {
    forall n :: Get(m, n, "") == ProfileOf(fs, n)
  }

  ghost predicate CleanOk(fs: seq<Finding>, s: set<string>) {
    forall n :: n in s <==> ReportedClean(fs, n)
  }

  ghost predicate Tallied(fs: seq<Finding>, t: Tally) {
    ByNameOk(fs, t.byName) && EngineOk(fs, t.engine) && CleanOk(fs, t.clean) && ProfilesOk(fs, t.profiles)
  }

  lemma MineStep(fs: seq<Finding>, f: Finding, name: string)
    ensures Mine(fs + [f], name) == Mine(fs, name) + if f.inspector == name && !f.clean then [f] else []
  {
    FilteredSnoc(fs, f, Dirty);
    FilteredSnoc(Filtered(fs, Dirty), f, By(name));
  }

  lemma ByNameStep(fs: seq<Finding>, f: Finding, m: map<string, seq<Finding>>)
    requires ByNameOk(fs, m)
    ensures ByNameOk(fs + [f], if f.clean then m else m[f.inspector := Get(m, f.inspector, []) + [f]])
  {
    hide Mine;
    forall n ensures Mine(fs + [f], n) == Mine(fs, n) + if f.inspector == n && !f.clean then [f] else [] {
      MineStep(fs, f, n);
    }
  }

  lemma EngineSnoc(fs: seq<Finding>, f: Finding, name: string)
    ensures EngineOf(fs + [f], name) ==
            if f.inspector == name && f.engineMs > EngineOf(fs, name) then f.engineMs else EngineOf(fs, name)
  {
    assert (fs + [f])[..|fs|] == fs;
  }

  lemma ProfileSnoc(fs: seq<Finding>, f: Finding, name: string)
    ensures ProfileOf(fs + [f], name) ==
            if ProfileOf(fs, name) == "" && f.inspector == name then f.profile else ProfileOf(fs, name)
  {
    assert (fs + [f])[..|fs|] == fs;
  }

  lemma EngineStep(fs: seq<Finding>, f: Finding, m: map<string, real>)
    requires EngineOk(fs, m)
    ensures EngineOk(fs + [f], if f.engineMs > Get(m, f.inspector, 0.0) then m[f.inspector := f.engineMs] else m)
  {
    hide EngineOf;
    forall n {
      EngineSnoc(fs, f, n);
    }
  }

  lemma ProfileStep(fs: seq<Finding>, f: Finding, m: map<string, string>)
    requires ProfilesOk(fs, m)
    ensures ProfilesOk(fs + [f],
                       if f.profile != "" && Get(m, f.inspector, "") == "" then m[f.inspector := f.profile] else m)
  {
    hide ProfileOf;
    forall n {
      ProfileSnoc(fs, f, n);
    }
  }

  lemma CleanStep(fs: seq<Finding>, f: Finding, s: set<string>)
    requires CleanOk(fs, s)
    ensures CleanOk(fs + [f], if f.clean then s + {f.inspector} else s)
  {
    forall n ensures ReportedClean(fs + [f], n) <==> ReportedClean(fs, n) || (f.inspector == n && f.clean) {
      if ReportedClean(fs, n) {
        var g :| g in fs && g.inspector == n && g.clean;
        assert g in fs + [f];
      }
      assert f in fs + [f];
    }
  }

  method TallyOf(phase: string, findings: seq<Finding>) returns (t: Tally)
    ensures Tallied(Filtered(findings, OfPhase(phase)), t)
  {
    hide Mine, EngineOf, ProfileOf, ReportedClean, Filtered, ByNameOk, EngineOk, ProfilesOk, CleanOk;
    t := Tally(map[], map[], {}, map[]);
    NothingTallied();
    FilteredNone(OfPhase(phase));
    ghost var fs: seq<Finding> := [];
    for i := 0 to |findings|
      invariant fs == Filtered(findings[..i], OfPhase(phase)) && Tallied(fs, t)
    {
      var item := findings[i];
      assert findings[..i + 1] == findings[..i] + [item];
      FilteredSnoc(findings[..i], item, OfPhase(phase));
      if item.phase != "" && phase != "" && item.phase != phase {
        continue;
      }
      ByNameStep(fs, item, t.byName);
      EngineStep(fs, item, t.engine);
      ProfileStep(fs, item, t.profiles);
      CleanStep(fs, item, t.clean);
      fs := fs + [item];
      if item.engineMs > Get(t.engine, item.inspector, 0.0) {
        t := t.(engine := t.engine[item.inspector := item.engineMs]);
      }
      if item.profile != "" && Get(t.profiles, item.inspector, "") == "" {
        t := t.(profiles := t.profiles[item.inspector := item.profile]);
      }
      if item.clean {
        t := t.(clean := t.clean + {item.inspector});
        continue;
      }
      t := t.(byName := t.byName[item.inspector := Get(t.byName, item.inspector, []) + [item]]);
    }
    assert findings[..|findings|] == findings;
  }

  lemma NothingTallied()
    ensures Tallied([], Tally(map[], map[], {}, map[]))
  {
  }

  // The card

  /** The participants the spine names: the module first if it gave a verdict, then the inspectors. */
  function Roster(ev: Event): seq<string> {
    Dedup(Named(ev), Itself)
  }

  function Named(ev: Event): seq<string> {
    (if Spread.SELF in ev.columns.verdict then [Spread.SELF] else []) + ev.columns.names
  }

  function FirstProfile(spine: string, finding: string): string {
    if spine != "" then spine else finding
  }

  /** A participant of the roster. */
  function Seat(ev: Event, rewrites: map<string, Spread.Rewrite>, fs: seq<Finding>, name: string): Participant {
    Participant(name, name == Spread.SELF, name == ev.author, Get(ev.columns.verdict, name, ""),
                Get(ev.columns.state, name, ""), Get(ev.columns.score, name, 0), Get(ev.columns.latency, name, 0.0),
                EngineOf(fs, name), Get(ev.columns.role, name, ""),
                FirstProfile(Get(ev.columns.profile, name, ""), ProfileOf(fs, name)),
                ReportedClean(fs, name) && Mine(fs, name) == [],
                if name in rewrites then Just(rewrites[name]) else Nothing, false, Mine(fs, name))
  }

  /** A participant only its findings name. */
  function Orphan(fs: seq<Finding>, name: string): Participant {
    Participant(name, false, false, "", "", 0, 0.0, EngineOf(fs, name), "", ProfileOf(fs, name), false, Nothing, true,
                Mine(fs, name))
  }

  ghost function OrphanNames(ev: Event, fs: seq<Finding>): seq<string> {
    InOrder(set f | f in fs && !f.clean && f.inspector !in Roster(ev) :: f.inspector)
  }

  function Seats(ev: Event, rewrites: map<string, Spread.Rewrite>, fs: seq<Finding>,
                 names: seq<string>): seq<Participant> {
    seq(|names|, i requires 0 <= i < |names| => Seat(ev, rewrites, fs, names[i]))
  }

  function Orphans(fs: seq<Finding>, names: seq<string>): seq<Participant> {
    seq(|names|, i requires 0 <= i < |names| => Orphan(fs, names[i]))
  }

  /** The participants, from the findings of the event's phase. */
  ghost function Items(ev: Event, rewrites: map<string, Spread.Rewrite>, fs: seq<Finding>): seq<Participant> {
    Seats(ev, rewrites, fs, Roster(ev)) + Orphans(fs, OrphanNames(ev, fs))
  }

  lemma SeatsSnoc(ev: Event, rewrites: map<string, Spread.Rewrite>, fs: seq<Finding>, names: seq<string>, name: string)
    ensures Seats(ev, rewrites, fs, names + [name]) == Seats(ev, rewrites, fs, names) + [Seat(ev, rewrites, fs, name)]
  {
    hide Seat;
  }

  lemma OrphansSnoc(fs: seq<Finding>, names: seq<string>, name: string)
    ensures Orphans(fs, names + [name]) == Orphans(fs, names) + [Orphan(fs, name)]
  {
    hide Orphan;
  }

  function SeatFrom(ev: Event, rewrites: map<string, Spread.Rewrite>, t: Tally, name: string,
                    ghost fs: seq<Finding>): (p: Participant)
    requires Tallied(fs, t)
    ensures p == Seat(ev, rewrites, fs, name)
  {
    var mine := Get(t.byName, name, []);
    Participant(name, name == Spread.SELF, name == ev.author, Get(ev.columns.verdict, name, ""),
                Get(ev.columns.state, name, ""), Get(ev.columns.score, name, 0), Get(ev.columns.latency, name, 0.0),
                Get(t.engine, name, 0.0), Get(ev.columns.role, name, ""),
                FirstProfile(Get(ev.columns.profile, name, ""), Get(t.profiles, name, "")),
                name in t.clean && mine == [],
                if name in rewrites then Just(rewrites[name]) else Nothing, false, mine)
  }

  method Seated(ev: Event, rewrites: map<string, Spread.Rewrite>, t: Tally, ghost fs: seq<Finding>)
    returns (items: seq<Participant>, seen: set<string>)
    requires Tallied(fs, t)
    ensures items == Seats(ev, rewrites, fs, Roster(ev))
    ensures forall n :: n in seen <==> n in Roster(ev)
  {
    hide Seat, Seats, Tallied, Dedup;
    var names: seq<string> := [];
    if Spread.SELF in ev.columns.verdict {
      names := names + [Spread.SELF];
    }
    names := names + ev.columns.names;
    items, seen := [], {};
    NoSeats(ev, rewrites, fs);
    for i := 0 to |names|
      invariant items == Seats(ev, rewrites, fs, Dedup(names[..i], Itself))
      invariant seen == KeysOf(names[..i], Itself)
    {
      var name := names[i];
      assert names[..i + 1] == names[..i] + [name];
      KeysSnoc(names[..i], name, Itself);
      DedupSnoc(names[..i], name, Itself);
      if name in seen {
        continue;
      }
      seen := seen + {name};
      SeatsSnoc(ev, rewrites, fs, Dedup(names[..i], Itself), name);
      items := items + [SeatFrom(ev, rewrites, t, name, fs)];
    }
    assert names[..|names|] == names == Named(ev);
    RosterNames(ev);
  }

  lemma NoSeats(ev: Event, rewrites: map<string, Spread.Rewrite>, fs: seq<Finding>)
    ensures Seats(ev, rewrites, fs, Dedup([], Itself)) == [] && Orphans(fs, []) == []
  {
  }

  lemma RosterNames(ev: Event)
    ensures forall n :: n in Roster(ev) <==> (n == Spread.SELF && n in ev.columns.verdict) || n in ev.columns.names
    ensures KeysOf(Named(ev), Itself) == set n | n in Roster(ev)
  {
    hide Dedup;
    KeysAreNames(Named(ev));
    DedupKeeps(Named(ev), Itself);
    KeysAreNames(Roster(ev));
    forall n ensures n in Roster(ev) <==> n in Named(ev) {
      assert n in Roster(ev) <==> n in KeysOf(Roster(ev), Itself);
      assert n in Named(ev) <==> n in KeysOf(Named(ev), Itself);
    }
  }

  function Unseen(seen: set<string>): string -> bool {
    (name: string) => name !in seen
  }

  method Unseated(t: Tally, seen: set<string>, ghost ev: Event, ghost fs: seq<Finding>)
    returns (items: seq<Participant>)
    requires Tallied(fs, t) && forall n :: n in seen <==> n in Roster(ev)
    ensures items == Orphans(fs, OrphanNames(ev, fs))
  {
    hide Orphan, Orphans, Filtered, InOrder, OrphanNames;
    var names := SortedKeys(t.byName);
    items := [];
    NoSeats(ev, map[], fs);
    FilteredNone(Unseen(seen));
    for i := 0 to |names|
      invariant items == Orphans(fs, Filtered(names[..i], Unseen(seen)))
    {
      var name := names[i];
      assert names[..i + 1] == names[..i] + [name];
      FilteredSnoc(names[..i], name, Unseen(seen));
      if name in seen {
        continue;
      }
      OrphansSnoc(fs, Filtered(names[..i], Unseen(seen)), name);
      items := items + [OrphanFrom(t, name, fs)];
    }
    assert names[..|names|] == names;
    OrphansAre(ev, fs, t, seen);
  }

  function OrphanFrom(t: Tally, name: string, ghost fs: seq<Finding>): (p: Participant)
    requires Tallied(fs, t)
    ensures p == Orphan(fs, name)
  {
    Participant(name, false, false, "", "", 0, 0.0, Get(t.engine, name, 0.0), "", Get(t.profiles, name, ""), false,
                Nothing, true, Get(t.byName, name, []))
  }

  lemma MineMembers(fs: seq<Finding>, name: string)
    ensures forall f :: f in Mine(fs, name) <==> f in fs && !f.clean && f.inspector == name
  {
    FilteredMembers(fs, Dirty);
    FilteredMembers(Filtered(fs, Dirty), By(name));
  }

  lemma MineIsNot(fs: seq<Finding>, name: string)
    ensures Mine(fs, name) != [] <==> exists f :: f in fs && !f.clean && f.inspector == name
  {
    hide Mine;
    MineMembers(fs, name);
    assert Mine(fs, name) != [] ==> Mine(fs, name)[0] in Mine(fs, name);
  }

  lemma OrphansAre(ev: Event, fs: seq<Finding>, t: Tally, seen: set<string>)
    requires Tallied(fs, t) && forall n :: n in seen <==> n in Roster(ev)
    ensures Filtered(InOrder(t.byName.Keys), Unseen(seen)) == OrphanNames(ev, fs)
  {
    hide Mine, Filtered, InOrder, Roster, Less;
    var all := InOrder(t.byName.Keys);
    FilteredMembers(all, Unseen(seen));
    FilteredSorted(all, Unseen(seen));
    var names := set f | f in fs && !f.clean && f.inspector !in Roster(ev) :: f.inspector;
    forall n ensures n in Filtered(all, Unseen(seen)) <==> n in names {
      MineIsNot(fs, n);
    }
    InOrderUnique(names, Filtered(all, Unseen(seen)));
  }

  method CardOf(ev: Event, findings: seq<Finding>, asRewrite: Spread.Decoder) returns (card: Card)
    ensures var fs := Filtered(findings, OfPhase(ev.phase));
            && card.items == Items(ev, Spread.RewritesOf(ev.columns.rewrite, asRewrite), fs)
            && card.count == |card.items| && card.actions == ActionsShown(ev.actions, fs)
            && card.phase == ev.phase && card.author == ev.author
  {
    hide Seats, Orphans, Roster, OrphanNames, Filtered, ActionsShown, Tallied;
    ghost var fs := Filtered(findings, OfPhase(ev.phase));
    var same := FindingsOfPhase(ev.phase, findings);
    var actions := ActionsOf(ev.actions, same);
    var rewrites := Spread.RewritesOf(ev.columns.rewrite, asRewrite);
    var t := TallyOf(ev.phase, findings);
    var items, seen := Seated(ev, rewrites, t, fs);
    var orphans := Unseated(t, seen, ev, fs);
    items := items + orphans;
    card := Card(ev.phase, ev.author, items, |items|, actions);
  }

  // Actions and what the engines said of them

  function Reported(inspector: string, said: seq<WireAction>, key: ActionKey): seq<Outcome> {
    if said == [] then []
    else
      var last := said[|said| - 1];
      Reported(inspector, said[..|said| - 1], key) +
      if last.outcome != "" && last.key == key then [Outcome(inspector, last.outcome, last.took)] else []
  }

  /** A scan of every report for one action. */
  function OutcomesOf(fs: seq<Finding>, key: ActionKey): seq<Outcome> {
    if fs == [] then []
    else OutcomesOf(fs[..|fs| - 1], key) + Reported(fs[|fs| - 1].inspector, fs[|fs| - 1].said, key)
  }

  function Shown(a: WireAction, outcomes: seq<Outcome>): Action {
    Action(a.key, a.target, a.delta, a.value, a.phase, a.passive, outcomes)
  }

  function ActionsShown(live: seq<WireAction>, fs: seq<Finding>): seq<Action> {
    seq(|live|, i requires 0 <= i < |live| => Shown(live[i], OutcomesOf(fs, live[i].key)))
  }

  ghost predicate SaidOk(said: map<ActionKey, seq<Outcome>>, fs: seq<Finding>, inspector: string,
                        some: seq<WireAction>) {
    forall k :: Get(said, k, []) == OutcomesOf(fs, k) + Reported(inspector, some, k)
  }

  lemma SaidStep(said: map<ActionKey, seq<Outcome>>, fs: seq<Finding>, inspector: string, some: seq<WireAction>,
                 got: WireAction)
    requires SaidOk(said, fs, inspector, some)
    ensures var o := Outcome(inspector, got.outcome, got.took);
            SaidOk(if got.outcome == "" then said else said[got.key := Get(said, got.key, []) + [o]],
                   fs, inspector, some + [got])
  {
    hide OutcomesOf;
    assert (some + [got])[..|some|] == some;
  }

  lemma SaidNext(said: map<ActionKey, seq<Outcome>>, fs: seq<Finding>, f: Finding, inspector: string)
    requires SaidOk(said, fs, f.inspector, f.said)
    ensures SaidOk(said, fs + [f], inspector, [])
  {
    assert (fs + [f])[..|fs|] == fs;
    forall k ensures OutcomesOf(fs + [f], k) + Reported(inspector, [], k) == Get(said, k, []) {
    }
  }

  lemma SaidNothing(inspector: string)
    ensures SaidOk(map[], [], inspector, [])
  {
  }

  lemma SaidOther(said: map<ActionKey, seq<Outcome>>, fs: seq<Finding>, one: string, two: string)
    requires SaidOk(said, fs, one, [])
    ensures SaidOk(said, fs, two, [])
    ensures forall k :: Get(said, k, []) == OutcomesOf(fs, k)
  {
    hide OutcomesOf;
    forall k ensures Get(said, k, []) == OutcomesOf(fs, k) {
      assert OutcomesOf(fs, k) + Reported(one, [], k) == OutcomesOf(fs, k);
    }
  }

  method ActionsOf(live: seq<WireAction>, findings: seq<Finding>) returns (out: seq<Action>)
    ensures out == ActionsShown(live, findings)
  {
    hide OutcomesOf, Reported, SaidOk;
    if |live| == 0 {
      return [];
    }
    var said: map<ActionKey, seq<Outcome>> := map[];
    SaidNothing("");
    for i := 0 to |findings|
      invariant SaidOk(said, findings[..i], "", [])
    {
      var item := findings[i];
      SaidOther(said, findings[..i], "", item.inspector);
      for j := 0 to |item.said|
        invariant SaidOk(said, findings[..i], item.inspector, item.said[..j])
      {
        var got := item.said[j];
        assert item.said[..j + 1] == item.said[..j] + [got];
        SaidStep(said, findings[..i], item.inspector, item.said[..j], got);
        if got.outcome == "" {
          continue;
        }
        said := said[got.key := Get(said, got.key, []) + [Outcome(item.inspector, got.outcome, got.took)]];
      }
      assert item.said[..|item.said|] == item.said;
      assert findings[..i + 1] == findings[..i] + [item];
      SaidNext(said, findings[..i], item, "");
    }
    assert findings[..|findings|] == findings;
    SaidOther(said, findings, "", "");
    out := [];
    for i := 0 to |live|
      invariant |out| == i
      invariant forall k :: 0 <= k < i ==> out[k] == Shown(live[k], OutcomesOf(findings, live[k].key))
    {
      var a := live[i];
      out := out + [Action(a.key, a.target, a.delta, a.value, a.phase, a.passive, Get(said, a.key, []))];
    }
  }
}
