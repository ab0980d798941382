/** What the card promises: no finding is lost, doubled or moved out of order, and every participant
    stands on it once. */
module CardFacts {
  import opened Lists
  import opened Strings
  import opened ReadSide
  import opened Sorting
  import opened Card
  import Spread

  // Conservation

  function AllFindings(items: seq<Participant>): seq<Finding> {
    if items == [] then [] else AllFindings(items[..|items| - 1]) + items[|items| - 1].findings
  }

  /** The findings of each of the names in turn. */
  function Dealt(fs: seq<Finding>, names: seq<string>): seq<Finding> {
    if names == [] then [] else Dealt(fs, names[..|names| - 1]) + Mine(fs, names[|names| - 1])
  }

  lemma {:induction false} DealtStep(fs: seq<Finding>, f: Finding, names: seq<string>)
    requires Distinct(names)
    ensures multiset(Dealt(fs + [f], names))
            == multiset(Dealt(fs, names)) + if !f.clean && f.inspector in names then multiset{f} else multiset{}
  {
    hide Mine;
    if names != [] {
      var init, last := names[..|names| - 1], names[|names| - 1];
      assert Distinct(init) && last !in init && names == init + [last];
      DealtStep(fs, f, init);
      MineStep(fs, f, last);
    }
  }

  /** Dealing to distinct names that cover every inspector deals each finding once. */
  lemma {:induction false} DealtConserves(fs: seq<Finding>, names: seq<string>)
    requires Distinct(names)
    requires forall f :: f in fs && !f.clean ==> f.inspector in names
    ensures multiset(Dealt(fs, names)) == multiset(Filtered(fs, Dirty))
  {
    if fs == [] {
      DealtNothing(names);
    } else {
      var init, last := fs[..|fs| - 1], fs[|fs| - 1];
      assert fs == init + [last];
      DealtConserves(init, names);
      DealtStep(init, last, names);
      FilteredSnoc(init, last, Dirty);
    }
  }

  lemma {:induction false} DealtNothing(names: seq<string>)
    ensures Dealt([], names) == []
  {
    if names != [] {
      DealtNothing(names[..|names| - 1]);
      assert Filtered<Finding>([], Dirty) == [];
    }
  }

  lemma {:induction false} AllFindingsDealt(fs: seq<Finding>, items: seq<Participant>, names: seq<string>)
    requires |items| == |names|
    requires forall i :: 0 <= i < |items| ==> items[i].findings == Mine(fs, names[i])
    ensures AllFindings(items) == Dealt(fs, names)
  {
    hide Mine;
    if names != [] {
      AllFindingsDealt(fs, items[..|items| - 1], names[..|names| - 1]);
    }
  }

  // Who stands where

  ghost function Order(ev: Event, fs: seq<Finding>): seq<string> {
    Roster(ev) + OrphanNames(ev, fs)
  }

  lemma StrictlySortedDistinct(names: seq<string>)
    requires StrictlySorted(names)
    ensures Distinct(names)
  {
    hide Less;
    forall i, j | 0 <= i < j < |names| ensures names[i] != names[j] {
      LessIrreflexive(names[i]);
    }
  }

  lemma OrderFacts(ev: Event, fs: seq<Finding>)
    ensures Distinct(Order(ev, fs)) && StrictlySorted(OrphanNames(ev, fs))
    ensures forall n :: n in OrphanNames(ev, fs)
                        <==> n !in Roster(ev) && exists f :: f in fs && !f.clean && f.inspector == n
    ensures forall f :: f in fs && !f.clean ==> f.inspector in Order(ev, fs)
  {
    hide Dedup, Less, InOrder;
    DedupDistinct(Named(ev));
    StrictlySortedDistinct(OrphanNames(ev, fs));
    var roster, orphans, all := Roster(ev), OrphanNames(ev, fs), Order(ev, fs);
    forall i, j | 0 <= i < j < |all| ensures all[i] != all[j] {
      if i < |roster| <= j {
        assert roster[i] in roster && orphans[j - |roster|] in orphans;
      }
    }
    forall f | f in fs && !f.clean ensures f.inspector in all {
      if f.inspector !in roster {
        assert f.inspector in orphans;
      }
    }
  }

  lemma ItemAt(ev: Event, rewrites: map<string, Spread.Rewrite>, fs: seq<Finding>, i: nat)
    requires i < |Items(ev, rewrites, fs)|
    ensures |Items(ev, rewrites, fs)| == |Order(ev, fs)|
    ensures Items(ev, rewrites, fs)[i]
            == if i < |Roster(ev)| then Seat(ev, rewrites, fs, Order(ev, fs)[i]) else Orphan(fs, Order(ev, fs)[i])
  {
    hide Seat, Orphan, Roster, OrphanNames;
  }

  /** No finding of the phase is lost or shown twice, whoever reported it; clean reports are not shown. */
  lemma {:induction false} CardConserves(ev: Event, rewrites: map<string, Spread.Rewrite>, fs: seq<Finding>)
    ensures multiset(AllFindings(Items(ev, rewrites, fs))) == multiset(Filtered(fs, Dirty))
  {
    hide Mine, Roster, OrphanNames, Items, Order;
    OrderFacts(ev, fs);
    var items, names := Items(ev, rewrites, fs), Order(ev, fs);
    ItemsLength(ev, rewrites, fs);
    forall i | 0 <= i < |items| ensures items[i].findings == Mine(fs, names[i]) {
      ItemAt(ev, rewrites, fs, i);
    }
    AllFindingsDealt(fs, items, names);
    DealtConserves(fs, names);
  }

  lemma ItemsLength(ev: Event, rewrites: map<string, Spread.Rewrite>, fs: seq<Finding>)
    ensures |Items(ev, rewrites, fs)| == |Order(ev, fs)|
  {
    hide Seat, Orphan, Roster, OrphanNames;
  }

  /** Every participant stands once, with its own findings in the order they came; the roster comes
      first and those only findings name come last, sorted, each with a finding to show. */
  lemma {:induction false} CardArranged(ev: Event, rewrites: map<string, Spread.Rewrite>, fs: seq<Finding>)
    ensures var items := Items(ev, rewrites, fs);
            && (forall i, j :: 0 <= i < j < |items| ==> items[i].name != items[j].name)
            && (forall i :: 0 <= i < |items| ==> items[i].findings == Mine(fs, items[i].name))
            && (forall i :: 0 <= i < |items| ==> (items[i].orphan <==> i >= |Roster(ev)|))
            && (forall i, j :: 0 <= i < j < |items| && items[i].orphan ==> Less(items[i].name, items[j].name))
            && (forall i :: 0 <= i < |items| && items[i].orphan ==> items[i].findings != [] && !items[i].clean)
            && (forall i :: 0 <= i < |Roster(ev)| ==> i < |items| && items[i].name == Roster(ev)[i])
  {
    hide Mine, Roster, OrphanNames, Items, Less;
    OrderFacts(ev, fs);
    ItemsLength(ev, rewrites, fs);
    var items, names, roster, orphans := Items(ev, rewrites, fs), Order(ev, fs), Roster(ev), OrphanNames(ev, fs);
    forall i | 0 <= i < |items|
      ensures items[i].name == names[i] && items[i].findings == Mine(fs, names[i])
      ensures items[i].orphan <==> i >= |roster|
      ensures i >= |roster| ==> items[i].name == orphans[i - |roster|] && items[i].findings != [] && !items[i].clean
    {
      ItemAt(ev, rewrites, fs, i);
      if i >= |roster| {
        assert orphans[i - |roster|] in orphans;
        MineIsNot(fs, names[i]);
      }
    }
  }

  /** The module's own entry stands first if it gave a verdict, and no other participant is marked as
      the module, provided that the inspector list does not name it. */
  lemma SelfFirst(ev: Event, rewrites: map<string, Spread.Rewrite>, fs: seq<Finding>)
    ensures var items := Items(ev, rewrites, fs);
            && (Spread.SELF in ev.columns.verdict ==> items != [] && items[0].self && items[0].name == Spread.SELF)
            && (Spread.SELF !in ev.columns.names ==>
                forall i :: 0 <= i < |items| && items[i].self ==> i == 0 && Spread.SELF in ev.columns.verdict)
  {
    hide Mine, OrphanNames, Items, Less, Dedup;
    DedupDistinct(Named(ev));
    RosterNames(ev);
    OrderFacts(ev, fs);
    ItemsLength(ev, rewrites, fs);
    var items, names, roster := Items(ev, rewrites, fs), Order(ev, fs), Roster(ev);
    if Spread.SELF in ev.columns.verdict {
      ItemAt(ev, rewrites, fs, 0);
    }
    if Spread.SELF !in ev.columns.names {
      forall i | 0 <= i < |items| && items[i].self ensures i == 0 && Spread.SELF in ev.columns.verdict {
        ItemAt(ev, rewrites, fs, i);
        assert names[i] == Spread.SELF && i < |roster| && roster[i] in roster;
      }
    }
  }

  /** A seat is marked clean exactly when the inspector reported clean and nothing else. */
  lemma CleanMeans(ev: Event, rewrites: map<string, Spread.Rewrite>, fs: seq<Finding>, name: string)
    ensures Seat(ev, rewrites, fs, name).clean <==>
            (exists f :: f in fs && f.inspector == name) && forall f :: f in fs && f.inspector == name ==> f.clean
  {
    hide Mine;
    MineIsNot(fs, name);
  }

  /** The engine time shown is the greatest one reported, clean or not, and never negative. */
  lemma {:induction false} EngineIsGreatest(fs: seq<Finding>, name: string)
    ensures EngineOf(fs, name) >= 0.0
    ensures forall f :: f in fs && f.inspector == name ==> f.engineMs <= EngineOf(fs, name)
    ensures EngineOf(fs, name) > 0.0 ==> exists f :: f in fs && f.inspector == name && f.engineMs == EngineOf(fs, name)
  {
    if fs != [] {
      var init, last := fs[..|fs| - 1], fs[|fs| - 1];
      EngineIsGreatest(init, name);
      assert fs == init + [last];
      assert last in fs;
      if EngineOf(init, name) > 0.0 {
        var f :| f in init && f.inspector == name && f.engineMs == EngineOf(init, name);
        assert f in fs;
      }
    }
  }

  // From the payload to the card

  /** The card of an event whose columns were spread from a payload names the module if it gave a
      verdict and then every other inspector of the payload, sorted; none is dropped as a repeat. */
  lemma CardOfSpread(ev: Event, items: map<string, Spread.Entry>, order: seq<string>, again: seq<string>)
    requires Spread.Enumerates(order, items) && Spread.Enumerates(again, Spread.Column(items, Spread.Rewritten))
    requires ev.columns == Spread.ColumnsOf(items, order, again)
    ensures Roster(ev) == (if Spread.SELF in items && items[Spread.SELF].verdict != "" then [Spread.SELF] else [])
                          + InOrder(items.Keys - {Spread.SELF})
    ensures Spread.SELF !in ev.columns.names
  {
    hide Sorted, Less, Spread.ObjectText, InOrder, Dedup;
    Spread.OrderFree(items, order, again, order, again);
    InOrderUnique(items.Keys - {Spread.SELF}, ev.columns.names);
    StrictlySortedDistinct(ev.columns.names);
    assert Distinct(Named(ev));
    DistinctKept(Named(ev));
  }

  // Actions

  lemma {:induction false} ReportedAre(inspector: string, said: seq<WireAction>, key: ActionKey)
    ensures forall o :: o in Reported(inspector, said, key) <==>
                        exists a :: a in said && a.key == key && a.outcome != "" &&
                                    o == Outcome.Outcome(inspector, a.outcome, a.took)
  {
    if said != [] {
      var init, last := said[..|said| - 1], said[|said| - 1];
      ReportedAre(inspector, init, key);
      assert said == init + [last];
      assert forall a :: a in said <==> a in init || a == last;
    }
  }

  ghost predicate Says(f: Finding, key: ActionKey, o: Outcome) {
    exists a :: a in f.said && a.key == key && a.outcome != "" && o == Outcome.Outcome(f.inspector, a.outcome, a.took)
  }

  lemma {:induction false} OutcomesAre(fs: seq<Finding>, key: ActionKey)
    ensures forall o :: o in OutcomesOf(fs, key) <==> exists f :: f in fs && Says(f, key, o)
  {
    hide Says, Reported;
    if fs != [] {
      var init, last := fs[..|fs| - 1], fs[|fs| - 1];
      OutcomesAre(init, key);
      ReportedSays(last, key);
      assert forall f :: f in fs <==> f in init || f == last;
    }
  }

  lemma ReportedSays(f: Finding, key: ActionKey)
    ensures forall o :: o in Reported(f.inspector, f.said, key) <==> Says(f, key, o)
  {
    ReportedAre(f.inspector, f.said, key);
  }

  /** The outcomes shown on an action are those some engine report of the phase gives for its key. */
  lemma OutcomesShown(live: seq<WireAction>, fs: seq<Finding>, i: nat)
    requires i < |live|
    ensures forall o :: o in ActionsShown(live, fs)[i].outcomes <==> exists f :: f in fs && Says(f, live[i].key, o)
    ensures ActionsShown(live, fs)[i].key == live[i].key && |ActionsShown(live, fs)| == |live|
  {
    hide OutcomesOf;
    OutcomesAre(fs, live[i].key);
  }
}
