/** The memory noise filter over all plugins and categories. The nested dictionaries are keyed by the
    pair; an analysis is what each category lists, a plugin that failed listing nothing. */
module MemoryFilter {
  import opened Prelude
  import opened NoiseTable

  datatype Slot = Slot(plugin: string, category: string)

  type Analysis = map<Slot, seq<Entry>>

  /** What the analyses listed under a slot, oldest first. */
  ghost function Lists(history: seq<Analysis>, slot: Slot): seq<seq<Entry>> {
    if history == [] then [] else
    var front, last := history[..|history| - 1], history[|history| - 1];
    if slot in last then Lists(front, slot) + [last[slot]] else Lists(front, slot)
  }

  /** The lists of a slot when all but the slots in `todo` of one more analysis are added. */
  ghost function Extended(history: seq<Analysis>, results: Analysis, todo: set<Slot>, slot: Slot): seq<seq<Entry>> {
    if slot in results && slot !in todo then Lists(history, slot) + [results[slot]] else Lists(history, slot)
  }

  lemma {:induction false} ListedIn(history: seq<Analysis>, slot: Slot, n: nat) returns (m: nat)
    requires n < |history| && slot in history[n]
    ensures m < |Lists(history, slot)| && Lists(history, slot)[m] == history[n][slot]
  {
    if n == |history| - 1 {
      m := |Lists(history, slot)| - 1;
    } else {
      m := ListedIn(history[..|history| - 1], slot, n);
    }
  }

  function Times(entries: seq<Entry>, e: Entry): nat {
    if entries == [] then 0
    else Times(entries[..|entries| - 1], e) + if entries[|entries| - 1] == e then 1 else 0
  }

  /** How often an entry was listed in all. */
  function TimesInAll(lists: seq<seq<Entry>>, e: Entry): nat {
    if lists == [] then 0 else TimesInAll(lists[..|lists| - 1], e) + Times(lists[|lists| - 1], e)
  }

  /** An ordinary category: how often each entry was ever listed. */
  ghost predicate PlainTrained(t: map<Entry, nat>, lists: seq<seq<Entry>>) {
    forall e :: (e in t <==> TimesInAll(lists, e) > 0) && (e in t ==> t[e] == TimesInAll(lists, e))
  }

  lemma {:induction false} ListedTimes(entries: seq<Entry>, e: Entry)
    requires e in entries
    ensures Times(entries, e) > 0
  {
    if entries[|entries| - 1] != e {
      ListedTimes(entries[..|entries| - 1], e);
    }
  }

  lemma {:induction false} ListedInAll(lists: seq<seq<Entry>>, m: nat, e: Entry)
    requires m < |lists| && e in lists[m]
    ensures TimesInAll(lists, e) > 0
  {
    if m == |lists| - 1 {
      ListedTimes(lists[m], e);
    } else {
      ListedInAll(lists[..|lists| - 1], m, e);
    }
  }

  method AddPlain(t: map<Entry, nat>, entries: seq<Entry>, ghost lists: seq<seq<Entry>>)
    returns (r: map<Entry, nat>)
    requires PlainTrained(t, lists)
    ensures PlainTrained(r, lists + [entries])
  {
    r := t;
    for k := 0 to |entries|
      invariant forall e :: e in r <==> e in t || Times(entries[..k], e) > 0
      invariant forall e :: e in r ==> r[e] == (if e in t then t[e] else 0) + Times(entries[..k], e)
    {
      var e := entries[k];
      assert entries[..k + 1][..k] == entries[..k];
      r := r[e := if e in r then r[e] + 1 else 1];
    }
    assert entries[..|entries|] == entries;
    assert (lists + [entries])[..|lists|] == lists;
  }

  method ApplyPlain(t: map<Entry, nat>, entries: seq<Entry>) returns (left: set<Entry>)
    ensures left == Elements(entries) - t.Keys
  {
    left := Elements(entries);
    var todo := t.Keys;
    while todo != {}
      invariant todo <= t.Keys && left == Elements(entries) - (t.Keys - todo)
    {
      var e :| e in todo;
      left := left - {e};
      todo := todo - {e};
    }
  }

  /** list(filtered_set), in some order. */
  method ListOf(s: set<Entry>) returns (list: seq<Entry>)
    ensures Distinct(list) && Elements(list) == s
  {
    list := [];
    var todo := s;
    while todo != {}
      invariant Distinct(list) && todo <= s && Elements(list) == s - todo
    {
      var e :| e in todo;
      assert e !in Elements(list);
      assert Elements(list + [e]) == Elements(list) + {e};
      list := list + [e];
      todo := todo - {e};
    }
  }

  lemma NoElements(entries: seq<Entry>)
    ensures Elements(entries) == {} ==> entries == []
  {
    assert entries != [] ==> entries[0] in Elements(entries);
  }

  /** The slot's table is trained on the lists; a slot never listed has none. */
  ghost predicate SlotTrained(special: set<string>, keyOf: string -> Extractor, keyed: map<Slot, Table>,
                              plain: map<Slot, map<Entry, nat>>, slot: Slot, lists: seq<seq<Entry>>)
  {
    if slot.plugin in special then
      && slot !in plain && (slot in keyed <==> lists != [])
      && (slot in keyed ==> NoiseTable.Trained(keyOf(slot.plugin), keyed[slot], lists))
    else
      && slot !in keyed && (slot in plain <==> lists != [])
      && (slot in plain ==> PlainTrained(plain[slot], lists))
  }

  /** The item's credit after the first loop of the adjustment. */
  ghost function CreditIn(t: Table, order: seq<Item>, p: Item): nat {
    if IsOrder(order, t) && p in t then Credit(t, order, p) else 0
  }

  class Filter {
    const special: set<string>
    const keyOf: string -> Extractor
    var keyed: map<Slot, Table>
    var plain: map<Slot, map<Entry, nat>>
    var numAnalyses: nat
    ghost var history: seq<Analysis>

    ghost predicate Trained(slot: Slot, lists: seq<seq<Entry>>)
      reads this
    {
      SlotTrained(special, keyOf, keyed, plain, slot, lists)
    }

    /** The state after adding the analyses of `history` and nothing else. */
    ghost predicate Valid()
      reads this
    {
      numAnalyses == |history| && forall slot :: Trained(slot, Lists(history, slot))
    }

    constructor (special: set<string>, keyOf: string -> Extractor)
      ensures Valid() && history == [] && this.special == special && this.keyOf == keyOf
    {
      this.special, this.keyOf := special, keyOf;
      keyed, plain, numAnalyses, history := map[], map[], 0, [];
    }

    /** The body of `add_analysis` for one category. */
    method AddSlot(slot: Slot, entries: seq<Entry>, ghost lists: seq<seq<Entry>>)
      requires Trained(slot, lists)
      modifies this`keyed, this`plain
      ensures Trained(slot, lists + [entries])
      ensures forall s :: s != slot ==> (s in keyed <==> s in old(keyed)) && (s in plain <==> s in old(plain))
      ensures forall s :: s != slot && s in keyed ==> keyed[s] == old(keyed)[s]
      ensures forall s :: s != slot && s in plain ==> plain[s] == old(plain)[s]
    {
      if slot.plugin in special {
        var table := if slot in keyed then keyed[slot] else map[];
        table := AddKeyed(keyOf(slot.plugin), table, entries, lists);
        keyed := keyed[slot := table];
      } else {
        var table := if slot in plain then plain[slot] else map[];
        table := AddPlain(table, entries, lists);
        plain := plain[slot := table];
      }
    }

    /** One more slot of an analysis being added. */
    method AddNext(slot: Slot, results: Analysis, ghost before: seq<Analysis>, ghost todo: set<Slot>)
      requires slot in todo && slot in results
      requires forall s :: Trained(s, Extended(before, results, todo, s))
      modifies this`keyed, this`plain
      ensures forall s :: Trained(s, Extended(before, results, todo - {slot}, s))
    {
      assert Trained(slot, Extended(before, results, todo, slot));
      AddSlot(slot, results[slot], Lists(before, slot));
      forall s ensures Trained(s, Extended(before, results, todo - {slot}, s)) {
        assert old(Trained(s, Extended(before, results, todo, s)));
      }
    }

    /** `add_analysis`: afterwards the filter is trained on one more analysis. */
    method AddAnalysis(results: Analysis)
      requires Valid()
      modifies this
      ensures Valid() && history == old(history) + [results]
    {
      ghost var before := history;
      var todo := results.Keys;
      while todo != {}
        invariant todo <= results.Keys && history == before && numAnalyses == |before|
        invariant forall slot :: Trained(slot, Extended(before, results, todo, slot))
      {
        var slot :| slot in todo;
        AddNext(slot, results, before, todo);
        todo := todo - {slot};
      }
      history := history + [results];
      numAnalyses := numAnalyses + 1;
      assert history[..|before|] == before;
      assert forall slot :: Lists(history, slot) == Extended(before, results, {}, slot);
    }

    /** Applying the filter to these entries leaves none. */
    ghost predicate Cleared(slot: Slot, entries: seq<Entry>)
      reads this
    {
      if slot.plugin in special
      then slot in keyed && Surviving(keyOf(slot.plugin), keyed[slot], Elements(entries)) == {}
      else slot in plain && Elements(entries) <= plain[slot].Keys
    }

    /** Whatever was listed under the slot is cleared after an adjustment to threshold 1. */
    lemma AdjustedClears(slot: Slot, before: map<Slot, Table>, lists: seq<seq<Entry>>, order: seq<Item>, m: nat)
      requires SlotTrained(special, keyOf, before, plain, slot, lists) && m < |lists|
      requires keyed.Keys == before.Keys
      requires slot in keyed ==> IsOrder(order, before[slot])
      requires slot in keyed ==> forall p :: p in keyed[slot] <==> Kept(before[slot], order, 1, p)
      ensures Cleared(slot, lists[m])
    {
      if slot.plugin in special {
        TrainingStaysSuppressed(keyOf(slot.plugin), before[slot], lists, order, keyed[slot], m);
      } else {
        forall e | e in lists[m] ensures e in plain[slot] {
          ListedInAll(lists, m, e);
        }
      }
    }

    /** `adjust_filter`: a threshold out of range changes nothing; otherwise every special category
        keeps the highest counts with enough credit in its iteration order, each reached by its key in
        at least that many analyses, and ordinary categories stay. Threshold 1 still clears every
        training analysis. */
    method AdjustFilter(threshold: int, orderOf: Slot -> seq<Item>)
      requires Valid() && forall slot :: slot in keyed ==> IsOrder(orderOf(slot), keyed[slot])
      modifies this`keyed
      ensures keyed.Keys == old(keyed).Keys
      ensures threshold < 0 || threshold > numAnalyses ==> keyed == old(keyed)
      ensures 0 <= threshold <= numAnalyses ==> forall slot, p :: slot in keyed ==>
          (p in keyed[slot] <==> Kept(old(keyed)[slot], orderOf(slot), threshold, p))
      ensures 0 <= threshold <= numAnalyses ==> forall slot, p :: slot in keyed && p in keyed[slot] ==>
          p in old(keyed)[slot] && keyed[slot][p] == CreditIn(old(keyed)[slot], orderOf(slot), p)
      ensures 0 <= threshold <= numAnalyses ==> forall slot, p :: slot in keyed && p in keyed[slot] ==>
          AtLeast(keyOf(slot.plugin), Lists(history, slot), p.0, p.1) >= threshold
      ensures threshold == 1 && numAnalyses > 0 ==>
          forall n, slot :: 0 <= n < |history| && slot in history[n] ==> Cleared(slot, history[n][slot])
    {
      if threshold < 0 || threshold > numAnalyses {
        return;
      }
      var todo := keyed.Keys;
      while todo != {}
        invariant keyed.Keys == old(keyed).Keys && todo <= keyed.Keys
        invariant forall slot :: slot in todo ==> keyed[slot] == old(keyed)[slot]
        invariant forall slot, p :: slot in keyed && slot !in todo ==>
            (p in keyed[slot] <==> Kept(old(keyed)[slot], orderOf(slot), threshold, p))
        invariant forall slot, p :: slot in keyed && slot !in todo && p in keyed[slot] ==>
            p in old(keyed)[slot] && keyed[slot][p] == CreditIn(old(keyed)[slot], orderOf(slot), p)
      {
        var slot :| slot in todo;
        var adjusted := AdjustTable(keyed[slot], orderOf(slot), threshold);
        if |keyed[slot]| != 0 {
          keyed := keyed[slot := adjusted];
        }
        todo := todo - {slot};
      }
      forall slot, p | slot in keyed && p in keyed[slot]
        ensures AtLeast(keyOf(slot.plugin), Lists(history, slot), p.0, p.1) >= threshold
      {
        assert old(Trained(slot, Lists(history, slot)));
        KeptIsSound(keyOf(slot.plugin), old(keyed)[slot], Lists(history, slot), orderOf(slot), threshold, p);
      }
      if threshold == 1 && numAnalyses > 0 {
        forall n, slot | 0 <= n < |history| && slot in history[n]
          ensures Cleared(slot, history[n][slot])
        {
          var m := ListedIn(history, slot, n);
          assert old(Trained(slot, Lists(history, slot)));
          AdjustedClears(slot, old(keyed), Lists(history, slot), orderOf(slot), m);
        }
      }
    }

    /** What is left of a category. */
    ghost function Remaining(slot: Slot, entries: seq<Entry>): set<Entry>
      reads this
    {
      if slot.plugin in special && slot in keyed then Surviving(keyOf(slot.plugin), keyed[slot], Elements(entries))
      else if slot.plugin !in special && slot in plain then Elements(entries) - plain[slot].Keys
      else Elements(entries)
    }

    /** What remains, remains again. */
    lemma RemainsAgain(slot: Slot, entries: seq<Entry>, left: seq<Entry>)
      requires Elements(left) == Remaining(slot, entries)
      ensures Remaining(slot, left) == Elements(left)
    {
      if slot.plugin in special && slot in keyed {
        ApplyTwice(keyOf(slot.plugin), keyed[slot], Elements(entries));
      }
    }

    /** The filter has a table for the slot. */
    predicate Knows(slot: Slot)
      reads this
    {
      if slot.plugin in special then slot in keyed else slot in plain
    }

    /** `apply_filter`: a category the filter knows becomes a list of what remains, each entry once; any
        other is left as it is, repetitions included. Applied again it would change nothing. */
    method ApplyFilter(results: Analysis) returns (left: Analysis)
      ensures left.Keys == results.Keys
      ensures forall slot :: slot in results && !Knows(slot) ==> left[slot] == results[slot]
      ensures forall slot :: slot in results && Knows(slot) ==>
          Distinct(left[slot]) && Elements(left[slot]) == Remaining(slot, results[slot])
      ensures forall slot :: slot in results ==> Remaining(slot, left[slot]) == Elements(left[slot])
      ensures forall slot :: slot in results && Cleared(slot, results[slot]) ==> left[slot] == []
    {
      left := results;
      var todo := results.Keys;
      while todo != {}
        invariant todo <= results.Keys && left.Keys == results.Keys
        invariant forall slot :: slot in results && (slot in todo || !Knows(slot)) ==> left[slot] == results[slot]
        invariant forall slot :: slot in results && slot !in todo && Knows(slot) ==>
            Distinct(left[slot]) && Elements(left[slot]) == Remaining(slot, results[slot])
      {
        var slot :| slot in todo;
        if Knows(slot) {
          var kept;
          if slot.plugin in special {
            kept := ApplyKeyed(keyOf(slot.plugin), keyed[slot], results[slot]);
          } else {
            kept := ApplyPlain(plain[slot], results[slot]);
          }
          var list := ListOf(kept);
          left := left[slot := list];
        }
        todo := todo - {slot};
      }
      forall slot | slot in results ensures Remaining(slot, left[slot]) == Elements(left[slot]) {
        if Knows(slot) {
          RemainsAgain(slot, results[slot], left[slot]);
        }
      }
      forall slot | slot in results && Cleared(slot, results[slot]) ensures left[slot] == [] {
        NoElements(left[slot]);
      }
    }

    /** A filter that was only trained removes every analysis it was trained on. */
    lemma TrainingIsCleared(n: nat, slot: Slot)
      requires Valid() && n < |history| && slot in history[n]
      ensures Cleared(slot, history[n][slot])
    {
      var lists := Lists(history, slot);
      var m := ListedIn(history, slot, n);
      assert Trained(slot, lists);
      if slot.plugin in special {
        TrainingIsSuppressed(keyOf(slot.plugin), keyed[slot], lists, m);
      } else {
        forall e | e in lists[m] ensures e in plain[slot] {
          ListedInAll(lists, m, e);
        }
      }
    }
  }

  function PlacesListing(entries: seq<Entry>, e: Entry): set<nat> {
    set i: nat | i < |entries| && entries[i] == e
  }

  /** An entry is counted as often as there are places that list it. */
  lemma {:induction false} TimesIsCount(entries: seq<Entry>, e: Entry)
    ensures Times(entries, e) == |PlacesListing(entries, e)|
  {
    if entries != [] {
      var n: nat := |entries| - 1;
      TimesIsCount(entries[..n], e);
      assert PlacesListing(entries, e) == PlacesListing(entries[..n], e) + if entries[n] == e then {n} else {};
    }
  }
}
