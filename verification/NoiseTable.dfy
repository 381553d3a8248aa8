/** One (plugin, category) slot of the memory noise filter: counting keys, crediting counts under a
    threshold, and removing expected entries. */
module NoiseTable {
  import opened Prelude

  datatype Entry = Entry(text: string)
  datatype Key = Key(text: string)

  /** (key, how often it occurred in one analysis). */
  type Item = (Key, nat)

  /** How many analyses an item was seen in. */
  type Table = map<Item, nat>

  type Extractor = Entry -> Key

  function Occurs(f: Extractor, entries: seq<Entry>, k: Key): nat {
    if entries == [] then 0
    else Occurs(f, entries[..|entries| - 1], k) + if f(entries[|entries| - 1]) == k then 1 else 0
  }

  /** In how many of the lists the key occurs exactly h times. */
  function Exactly(f: Extractor, lists: seq<seq<Entry>>, k: Key, h: nat): nat {
    if lists == [] then 0
    else Exactly(f, lists[..|lists| - 1], k, h) + if Occurs(f, lists[|lists| - 1], k) == h then 1 else 0
  }

  /** In how many of the lists the key occurs h or more times. */
  function AtLeast(f: Extractor, lists: seq<seq<Entry>>, k: Key, h: nat): nat {
    if lists == [] then 0
    else AtLeast(f, lists[..|lists| - 1], k, h) + if Occurs(f, lists[|lists| - 1], k) >= h then 1 else 0
  }

  function Get(t: Table, i: Item): nat {
    if i in t then t[i] else 0
  }

  /** The table counts, for every key and positive count, the lists with exactly that count. */
  ghost predicate Trained(f: Extractor, t: Table, lists: seq<seq<Entry>>) {
    && (forall i :: i in t ==> i.1 > 0 && t[i] > 0)
    && (forall k, h: nat :: h > 0 ==> Get(t, (k, h)) == Exactly(f, lists, k, h))
  }

  // ---- training ----

  /** `add_special_plugin` on one category. */
  method CountKeys(f: Extractor, entries: seq<Entry>) returns (counts: map<Key, nat>)
    ensures forall k :: k in counts <==> Occurs(f, entries, k) > 0
    ensures forall k :: k in counts ==> counts[k] == Occurs(f, entries, k)
  {
    counts := map[];
    for n := 0 to |entries|
      invariant forall k :: k in counts <==> Occurs(f, entries[..n], k) > 0
      invariant forall k :: k in counts ==> counts[k] == Occurs(f, entries[..n], k)
    {
      assert entries[..n + 1][..n] == entries[..n];
      var k := f(entries[n]);
      counts := counts[k := if k in counts then counts[k] + 1 else 1];
    }
    assert entries[..|entries|] == entries;
  }

  /** `add_analysis` on one special category, its items visited in any order. */
  method AddKeyed(f: Extractor, t: Table, entries: seq<Entry>, ghost lists: seq<seq<Entry>>) returns (r: Table)
    requires Trained(f, t, lists)
    ensures Trained(f, r, lists + [entries])
  {
    var counts := CountKeys(f, entries);
    r := t;
    var todo := counts.Keys;
    while todo != {}
      invariant todo <= counts.Keys
      invariant forall i :: i in r ==> i.1 > 0 && r[i] > 0
      invariant forall k, h: nat :: h > 0 ==>
          Get(r, (k, h)) == Get(t, (k, h)) + if k in counts.Keys - todo && counts[k] == h then 1 else 0
    {
      var k :| k in todo;
      var item := (k, counts[k]);
      r := r[item := Get(r, item) + 1];
      todo := todo - {k};
    }
    assert (lists + [entries])[..|lists|] == lists;
  }

  // ---- adjusting to a threshold ----

  /** A dictionary iteration order of the table. */
  ghost predicate IsOrder(order: seq<Item>, t: Table) {
    Distinct(order) && (forall i :: i in order <==> i in t)
  }

  /** Within a key, smaller counts come first. */
  predicate Ascending(order: seq<Item>) {
    forall i, j :: 0 <= i < j < |order| && order[i].0 == order[j].0 ==> order[i].1 < order[j].1
  }

  /** What entry_dict[k][count] holds after the items in s: the item's own analyses plus those of the
      larger counts of its key met after it. */
  function Credit(t: Table, s: seq<Item>, p: Item): nat
    requires p in s && forall i :: i in s ==> i in t
  {
    var x := s[|s| - 1];
    if x == p then t[p]
    else Credit(t, s[..|s| - 1], p) + if x.0 == p.0 && x.1 > p.1 then t[x] else 0
  }

  /** The highest count of its key whose credit passes the threshold. */
  ghost predicate Kept(t: Table, order: seq<Item>, threshold: int, p: Item)
    requires IsOrder(order, t)
  {
    && p in t && p.1 > 0 && Credit(t, order, p) >= threshold
    && forall q :: q in t && q.0 == p.0 && q.1 > p.1 ==> Credit(t, order, q) < threshold
  }

  lemma CreditStep(t: Table, s: seq<Item>, x: Item, p: Item)
    requires x in t && (forall i :: i in s ==> i in t) && p in s + [x]
    ensures p == x ==> Credit(t, s + [x], p) == t[x]
    ensures p != x ==> p in s && Credit(t, s + [x], p) == Credit(t, s, p) + if x.0 == p.0 && x.1 > p.1 then t[x] else 0
  {
    assert (s + [x])[..|s|] == s;
  }

  ghost predicate Credited(t: Table, s: seq<Item>, credit: map<Item, nat>)
    requires forall i :: i in s ==> i in t
  {
    forall p :: (p in credit <==> p in s) && (p in s ==> credit[p] == Credit(t, s, p))
  }

  /** The item's analyses are credited to it and to the smaller counts of its key met so far. */
  function Pass(t: Table, credit: map<Item, nat>, x: Item): map<Item, nat>
    requires x in t
  {
    var raised := map p | p in credit :: if p.0 == x.0 && x.1 > p.1 then credit[p] + t[x] else credit[p];
    raised[x := t[x]]
  }

  lemma PassCredits(t: Table, s: seq<Item>, credit: map<Item, nat>, x: Item)
    requires x in t && x !in s && (forall i :: i in s ==> i in t) && Credited(t, s, credit)
    ensures Credited(t, s + [x], Pass(t, credit, x))
  {
    forall p | p in s + [x] ensures Pass(t, credit, x)[p] == Credit(t, s + [x], p) {
      CreditStep(t, s, x, p);
    }
  }

  /** The first loop of `adjust_filter`. */
  method Credits(t: Table, order: seq<Item>) returns (credit: map<Item, nat>)
    requires IsOrder(order, t)
    ensures credit.Keys == t.Keys
    ensures forall p :: p in t ==> credit[p] == Credit(t, order, p)
  {
    credit := map[];
    for n := 0 to |order|
      invariant Credited(t, order[..n], credit)
    {
      assert order[..n + 1] == order[..n] + [order[n]];
      PassCredits(t, order[..n], credit, order[n]);
      credit := Pass(t, credit, order[n]);
    }
    assert order[..|order|] == order;
  }

  /** The inner loop: the highest count of the key with enough credit, or -1. */
  method Highest(t: Table, credit: map<Item, nat>, k: Key, threshold: int) returns (highest: int)
    requires credit.Keys == t.Keys
    ensures highest == -1 || (highest >= 0 && (k, highest) in t && credit[(k, highest)] >= threshold)
    ensures forall c: nat :: (k, c) in t && credit[(k, c)] >= threshold ==> c <= highest
  {
    highest := -1;
    var todo := t.Keys;
    while todo != {}
      invariant highest == -1 || (highest >= 0 && (k, highest) in t && credit[(k, highest)] >= threshold)
      invariant forall p :: p in t && p !in todo && p.0 == k && credit[p] >= threshold ==> p.1 <= highest
      decreases todo
    {
      var p :| p in todo;
      if p.0 == k && credit[p] >= threshold && p.1 > highest {
        highest := p.1;
      }
      todo := todo - {p};
    }
  }

  /** `adjust_filter` on one category with items: the kept items, one per key at most. */
  method AdjustTable(t: Table, order: seq<Item>, threshold: int) returns (adjusted: Table)
    requires IsOrder(order, t)
    ensures forall p :: p in adjusted <==> Kept(t, order, threshold, p)
    ensures forall p :: p in adjusted ==> p in order && adjusted[p] == Credit(t, order, p)
  {
    var credit := Credits(t, order);
    adjusted := map[];
    var keys := set p | p in t :: p.0;
    while keys != {}
      invariant forall p :: p in adjusted <==> Kept(t, order, threshold, p) && p.0 !in keys
      invariant forall p :: p in adjusted ==> p in order && adjusted[p] == Credit(t, order, p)
    {
      var k :| k in keys;
      var highest := Highest(t, credit, k, threshold);
      if highest > 0 {
        adjusted := adjusted[(k, highest as nat) := credit[(k, highest as nat)]];
      }
      keys := keys - {k};
    }
  }

  /** Analyses recorded at the item's key with its count or more, over the items in s. */
  function Mass(t: Table, s: seq<Item>, p: Item): nat
    requires forall i :: i in s ==> i in t
  {
    if s == [] then 0 else
    var x := s[|s| - 1];
    Mass(t, s[..|s| - 1], p) + if x.0 == p.0 && x.1 >= p.1 then t[x] else 0
  }

  /** In any order the credit never exceeds the mass, and never falls below the item's own count. */
  lemma {:induction false} CreditBounds(t: Table, s: seq<Item>, p: Item)
    requires p in s && forall i :: i in s ==> i in t
    ensures t[p] <= Credit(t, s, p) <= Mass(t, s, p)
  {
    if s[|s| - 1] != p {
      CreditBounds(t, s[..|s| - 1], p);
    }
  }

  /** Only larger items follow, so nothing before the item counts. */
  lemma {:induction false} MassBefore(t: Table, s: seq<Item>, p: Item)
    requires forall i :: i in s ==> i in t
    requires forall i :: i in s && i.0 == p.0 ==> i.1 < p.1
    ensures Mass(t, s, p) == 0
  {
    if s != [] {
      MassBefore(t, s[..|s| - 1], p);
    }
  }

  /** In ascending order the credit is the whole mass. */
  lemma {:induction false} CreditAscending(t: Table, s: seq<Item>, p: Item)
    requires p in s && (forall i :: i in s ==> i in t) && Ascending(s)
    ensures Credit(t, s, p) == Mass(t, s, p)
  {
    var front, x := s[..|s| - 1], s[|s| - 1];
    if x == p {
      MassBefore(t, front, p);
    } else {
      CreditAscending(t, front, p);
    }
  }

  // ---- what the mass means ----

  /** The mass of a table trained on the lists, counted item by item. */
  function ListMass(f: Extractor, lists: seq<seq<Entry>>, s: seq<Item>, p: Item): nat {
    if s == [] then 0 else
    var x := s[|s| - 1];
    ListMass(f, lists, s[..|s| - 1], p)
    + if x.0 == p.0 && x.1 >= p.1 then Exactly(f, lists, x.0, x.1) else 0
  }

  lemma {:induction false} MassIsListMass(f: Extractor, t: Table, lists: seq<seq<Entry>>, s: seq<Item>, p: Item)
    requires Trained(f, t, lists) && forall i :: i in s ==> i in t
    ensures Mass(t, s, p) == ListMass(f, lists, s, p)
  {
    if s != [] {
      MassIsListMass(f, t, lists, s[..|s| - 1], p);
      var x := s[|s| - 1];
      assert Get(t, (x.0, x.1)) == Exactly(f, lists, x.0, x.1);
    }
  }

  /** One more list adds one to the mass exactly if its own item is listed and large enough. */
  lemma {:induction false} ListMassStep(f: Extractor, lists: seq<seq<Entry>>, l: seq<Entry>, s: seq<Item>, p: Item)
    requires Distinct(s)
    ensures ListMass(f, lists + [l], s, p) == ListMass(f, lists, s, p)
            + if (p.0, Occurs(f, l, p.0)) in s && Occurs(f, l, p.0) >= p.1 then 1 else 0
  {
    assert (lists + [l])[..|lists|] == lists;
    if s != [] {
      var front, x := s[..|s| - 1], s[|s| - 1];
      ListMassStep(f, lists, l, front, p);
      assert s == front + [x];
      assert x !in front;
    }
  }

  lemma {:induction false} ExactlyPositive(f: Extractor, lists: seq<seq<Entry>>, n: nat, k: Key)
    requires n < |lists|
    ensures Exactly(f, lists, k, Occurs(f, lists[n], k)) > 0
  {
    if n < |lists| - 1 {
      ExactlyPositive(f, lists[..|lists| - 1], n, k);
    }
  }

  lemma {:induction false} EmptyMass(f: Extractor, s: seq<Item>, p: Item)
    ensures ListMass(f, [], s, p) == 0
  {
    if s != [] {
      EmptyMass(f, s[..|s| - 1], p);
    }
  }

  /** If every positive count that occurs is listed once, the mass is the number of lists in which
      the key occurs that often or more. */
  lemma {:induction false} ListMassIsAtLeast(f: Extractor, lists: seq<seq<Entry>>, s: seq<Item>, p: Item)
    requires Distinct(s) && p.1 > 0
    requires forall n :: 0 <= n < |lists| && Occurs(f, lists[n], p.0) > 0 ==> (p.0, Occurs(f, lists[n], p.0)) in s
    ensures ListMass(f, lists, s, p) == AtLeast(f, lists, p.0, p.1)
  {
    if lists == [] {
      EmptyMass(f, s, p);
    } else {
      var front, l := lists[..|lists| - 1], lists[|lists| - 1];
      assert forall n :: 0 <= n < |front| ==> front[n] == lists[n];
      ListMassIsAtLeast(f, front, s, p);
      ListMassStep(f, front, l, s, p);
      assert lists == front + [l];
      assert Occurs(f, l, p.0) > 0 ==> (p.0, Occurs(f, lists[|lists| - 1], p.0)) in s;
    }
  }

  lemma MassIsAtLeast(f: Extractor, t: Table, lists: seq<seq<Entry>>, order: seq<Item>, p: Item)
    requires Trained(f, t, lists) && IsOrder(order, t) && p.1 > 0
    ensures Mass(t, order, p) == AtLeast(f, lists, p.0, p.1)
  {
    MassIsListMass(f, t, lists, order, p);
    forall n | 0 <= n < |lists| && Occurs(f, lists[n], p.0) > 0
      ensures (p.0, Occurs(f, lists[n], p.0)) in order
    {
      ExactlyPositive(f, lists, n, p.0);
      assert Get(t, (p.0, Occurs(f, lists[n], p.0))) > 0;
    }
    ListMassIsAtLeast(f, lists, order, p);
  }

  /** Whatever the iteration order, an item kept under threshold t has at least t analyses in which
      its key occurred that often or more. */
  lemma KeptIsSound(f: Extractor, t: Table, lists: seq<seq<Entry>>, order: seq<Item>, threshold: int, p: Item)
    requires Trained(f, t, lists) && IsOrder(order, t) && Kept(t, order, threshold, p)
    ensures AtLeast(f, lists, p.0, p.1) >= threshold
  {
    CreditBounds(t, order, p);
    MassIsAtLeast(f, t, lists, order, p);
  }

  /** The greatest observed count of its key reached in at least `threshold` lists. */
  ghost predicate Greatest(f: Extractor, t: Table, lists: seq<seq<Entry>>, threshold: int, p: Item) {
    && p in t && AtLeast(f, lists, p.0, p.1) >= threshold
    && forall q :: q in t && q.0 == p.0 && q.1 > p.1 ==> AtLeast(f, lists, q.0, q.1) < threshold
  }

  /** In ascending order the kept item is exactly the greatest count reached often enough. */
  lemma KeptIsGreatest(f: Extractor, t: Table, lists: seq<seq<Entry>>, order: seq<Item>, threshold: int, p: Item)
    requires Trained(f, t, lists) && IsOrder(order, t) && Ascending(order)
    ensures Kept(t, order, threshold, p) <==> Greatest(f, t, lists, threshold, p)
  {
    forall q | q in t ensures Credit(t, order, q) == AtLeast(f, lists, q.0, q.1) {
      CreditAscending(t, order, q);
      MassIsAtLeast(f, t, lists, order, q);
    }
  }

  lemma {:induction false} MassAtLeastItem(t: Table, s: seq<Item>, p: Item, n: nat)
    requires (forall i :: i in s ==> i in t) && n < |s| && s[n].0 == p.0 && s[n].1 >= p.1
    ensures Mass(t, s, p) >= t[s[n]]
  {
    if n < |s| - 1 {
      MassAtLeastItem(t, s[..|s| - 1], p, n);
    }
  }

  /** A larger count met before the item is missing from its credit. */
  lemma {:induction false} CreditShort(t: Table, s: seq<Item>, i: nat, j: nat)
    requires Distinct(s) && forall x :: x in s ==> x in t && t[x] > 0
    requires i < j < |s| && s[i].0 == s[j].0 && s[i].1 > s[j].1
    ensures Credit(t, s, s[j]) < Mass(t, s, s[j])
  {
    var front := s[..|s| - 1];
    if j == |s| - 1 {
      MassAtLeastItem(t, front, s[j], i);
    } else {
      CreditShort(t, front, i, j);
    }
  }

  lemma {:induction false} MassMonotone(t: Table, s: seq<Item>, p: Item, q: Item)
    requires (forall x :: x in s ==> x in t) && q.0 == p.0 && q.1 >= p.1
    ensures Mass(t, s, q) <= Mass(t, s, p)
  {
    if s != [] {
      MassMonotone(t, s[..|s| - 1], p, q);
    }
  }

  /** A larger count has a strictly smaller mass. */
  lemma {:induction false} MassDrops(t: Table, s: seq<Item>, p: Item, q: Item)
    requires p in s && (forall x :: x in s ==> x in t) && q.0 == p.0 && q.1 > p.1
    ensures Mass(t, s, q) + t[p] <= Mass(t, s, p)
  {
    var front, x := s[..|s| - 1], s[|s| - 1];
    if p in front {
      MassDrops(t, front, p, q);
    } else {
      assert x == p;
      MassMonotone(t, front, p, q);
    }
  }

  /** The threshold that only the item out of order misses. */
  lemma OutOfOrderMisses(f: Extractor, t: Table, lists: seq<seq<Entry>>, order: seq<Item>, i: nat, j: nat)
    requires Trained(f, t, lists) && IsOrder(order, t)
    requires i < j < |order| && order[i].0 == order[j].0 && order[i].1 > order[j].1
    ensures var p := order[j]; var threshold := AtLeast(f, lists, p.0, p.1);
            Greatest(f, t, lists, threshold, p) && !Kept(t, order, threshold, p)
  {
    var p := order[j];
    CreditShort(t, order, i, j);
    MassIsAtLeast(f, t, lists, order, p);
    forall q | q in t && q.0 == p.0 && q.1 > p.1
      ensures AtLeast(f, lists, q.0, q.1) < AtLeast(f, lists, p.0, p.1)
    {
      MassDrops(t, order, p, q);
      MassIsAtLeast(f, t, lists, order, q);
    }
  }

  /** The adjustment keeps the greatest count reached often enough, at every threshold, exactly when
      the dictionary happens to be iterated with each key's counts ascending. */
  lemma GreatestIffAscending(f: Extractor, t: Table, lists: seq<seq<Entry>>, order: seq<Item>)
    requires Trained(f, t, lists) && IsOrder(order, t)
    ensures (forall threshold: int, p :: Kept(t, order, threshold, p) <==> Greatest(f, t, lists, threshold, p))
            <==> Ascending(order)
  {
    if Ascending(order) {
      forall threshold: int, p ensures Kept(t, order, threshold, p) <==> Greatest(f, t, lists, threshold, p) {
        KeptIsGreatest(f, t, lists, order, threshold, p);
      }
    } else {
      var i, j :| 0 <= i < j < |order| && order[i].0 == order[j].0 && order[i].1 >= order[j].1;
      OutOfOrderMisses(f, t, lists, order, i, j);
    }
  }

  lemma {:induction false} OccursAll(f: Extractor, entries: seq<Entry>, k: Key)
    requires forall e :: e in entries ==> (f(e) == k <==> f(entries[0]) == k)
    ensures Occurs(f, entries, k) == if entries != [] && f(entries[0]) == k then |entries| else 0
  {
    if entries != [] {
      var front := entries[..|entries| - 1];
      assert forall e :: e in front ==> e in entries;
      assert entries[|entries| - 1] in entries;
      OccursAll(f, front, k);
    }
  }

  /** The failure on data: two analyses, counts 2 and 1, visited larger first, threshold 2. */
  lemma GreatestCanBeMissed()
    ensures exists f: Extractor, t: Table, lists: seq<seq<Entry>>, order: seq<Item>, p: Item ::
      && Trained(f, t, lists) && IsOrder(order, t)
      && Greatest(f, t, lists, 2, p) && !Kept(t, order, 2, p)
  {
    var k := Key("k");
    var f: Extractor := e => k;
    var e := Entry("e");
    var one, two := [e], [e, e];
    var lists := [two, one];
    var t: Table := map[(k, 2) := 1, (k, 1) := 1];
    var order: seq<Item> := [(k, 2), (k, 1)];
    OccursAll(f, one, k);
    OccursAll(f, two, k);
    assert lists[..1] == [two] && [two][..0] == [];
    forall j, h: nat | h > 0 ensures Get(t, (j, h)) == Exactly(f, lists, j, h) {
      OccursAll(f, one, j);
      OccursAll(f, two, j);
      assert Exactly(f, [two], j, h) == if Occurs(f, two, j) == h then 1 else 0;
    }
    assert AtLeast(f, [two], k, 1) == 1 && AtLeast(f, [two], k, 2) == 1;
    assert AtLeast(f, lists, k, 1) == 2 && AtLeast(f, lists, k, 2) == 1;
    assert Credit(t, order, (k, 1)) == 1;
    assert Trained(f, t, lists) && IsOrder(order, t) && Greatest(f, t, lists, 2, (k, 1));
  }

  // ---- applying ----

  function Elements(entries: seq<Entry>): set<Entry> {
    set e | e in entries
  }

  /** The distinct entries with this key. */
  function WithKey(f: Extractor, s: set<Entry>, k: Key): set<Entry> {
    set e | e in s && f(e) == k
  }

  /** What a special category keeps: the entries whose key occurs more often than every count the
      filter has for it. */
  ghost function Surviving(f: Extractor, t: Table, s: set<Entry>): set<Entry> {
    set e | e in s && forall h: nat :: (f(e), h) in t ==> |WithKey(f, s, f(e))| > h
  }

  /** A key's entries survive together or not at all. */
  lemma SurvivorsByKey(f: Extractor, t: Table, s: set<Entry>, k: Key)
    ensures WithKey(f, Surviving(f, t, s), k) ==
            if forall h: nat :: (k, h) in t ==> |WithKey(f, s, k)| > h then WithKey(f, s, k) else {}
  {
  }

  /** `apply_filter` on one special category: the filter's items are visited in any order. */
  method ApplyKeyed(f: Extractor, t: Table, entries: seq<Entry>) returns (left: set<Entry>)
    ensures left == Surviving(f, t, Elements(entries))
  {
    ghost var all := Elements(entries);
    left := Elements(entries);
    var todo := t.Keys;
    ghost var seen: Table := map[];
    while todo != {}
      invariant todo <= t.Keys && forall i :: i in seen <==> i in t.Keys - todo
      invariant left == Surviving(f, seen, all)
    {
      var item :| item in todo;
      var (k, count) := item;
      var matching := WithKey(f, left, k);
      SurvivorsByKey(f, seen, all, k);
      if count >= |matching| {
        left := left - matching;
      }
      seen := seen[item := 0];
      todo := todo - {item};
    }
    assert forall i :: i in seen <==> i in t;
  }

  /** Applying the same filter again changes nothing. */
  lemma ApplyTwice(f: Extractor, t: Table, s: set<Entry>)
    ensures Surviving(f, t, Surviving(f, t, s)) == Surviving(f, t, s)
  {
    var once := Surviving(f, t, s);
    forall e | e in once ensures e in Surviving(f, t, once) {
      SurvivorsByKey(f, t, s, f(e));
    }
  }

  // ---- training data is suppressed ----

  lemma {:induction false} DistinctAtMostOccurs(f: Extractor, entries: seq<Entry>, k: Key)
    ensures |WithKey(f, Elements(entries), k)| <= Occurs(f, entries, k)
  {
    if entries != [] {
      var front, x := entries[..|entries| - 1], entries[|entries| - 1];
      DistinctAtMostOccurs(f, front, k);
      assert entries == front + [x];
      var a, b := WithKey(f, Elements(front), k), WithKey(f, Elements(entries), k);
      assert b <= a + {x};
      if f(x) == k {
        SubsetSize(b, a + {x});
      } else {
        assert b <= a;
        SubsetSize(b, a);
      }
    }
  }

  lemma {:induction false} OccursPositive(f: Extractor, entries: seq<Entry>, n: nat)
    requires n < |entries|
    ensures Occurs(f, entries, f(entries[n])) > 0
  {
    if n < |entries| - 1 {
      OccursPositive(f, entries[..|entries| - 1], n);
    }
  }

  /** A filter that, for every key of a list, has a count no smaller than its number of occurrences
      removes the whole list. */
  lemma CoveredIsRemoved(f: Extractor, t: Table, entries: seq<Entry>)
    requires forall k :: Occurs(f, entries, k) > 0 ==> exists h: nat :: (k, h) in t && h >= Occurs(f, entries, k)
    ensures Surviving(f, t, Elements(entries)) == {}
  {
    var all := Elements(entries);
    forall e | e in all ensures e !in Surviving(f, t, all) {
      var n :| 0 <= n < |entries| && entries[n] == e;
      OccursPositive(f, entries, n);
      DistinctAtMostOccurs(f, entries, f(e));
    }
  }

  /** Without adjustment, every list the table was trained on is removed whole. */
  lemma TrainingIsSuppressed(f: Extractor, t: Table, lists: seq<seq<Entry>>, n: nat)
    requires Trained(f, t, lists) && n < |lists|
    ensures Surviving(f, t, Elements(lists[n])) == {}
  {
    forall k | Occurs(f, lists[n], k) > 0
      ensures exists h: nat :: (k, h) in t && h >= Occurs(f, lists[n], k)
    {
      ExactlyPositive(f, lists, n, k);
      assert Get(t, (k, Occurs(f, lists[n], k))) > 0;
    }
    CoveredIsRemoved(f, t, lists[n]);
  }

  lemma {:induction false} LargestCount(items: set<Item>, k: Key, h: nat) returns (m: nat)
    requires (k, h) in items
    ensures (k, m) in items && m >= h
    ensures forall c: nat :: (k, c) in items ==> c <= m
    decreases |items|
  {
    m := h;
    var above := set i | i in items && i.0 == k && i.1 > h;
    if above != {} {
      var i :| i in above;
      assert (k, h) !in above;
      SubsetSize(above, items - {(k, h)});
      m := LargestCount(above, k, i.1);
      forall c: nat | (k, c) in items ensures c <= m {
        assert c > h ==> (k, c) in above;
      }
    } else {
      forall c: nat | (k, c) in items ensures c <= m {
        assert (k, c) !in above;
      }
    }
  }

  /** After adjusting to threshold 1, in any order, the training lists are still removed whole. */
  lemma TrainingStaysSuppressed(f: Extractor, t: Table, lists: seq<seq<Entry>>, order: seq<Item>, kept: Table, n: nat)
    requires Trained(f, t, lists) && IsOrder(order, t) && n < |lists|
    requires forall p :: p in kept <==> Kept(t, order, 1, p)
    ensures Surviving(f, kept, Elements(lists[n])) == {}
  {
    forall k | Occurs(f, lists[n], k) > 0
      ensures exists h: nat :: (k, h) in kept && h >= Occurs(f, lists[n], k)
    {
      var h := Occurs(f, lists[n], k);
      ExactlyPositive(f, lists, n, k);
      assert Get(t, (k, h)) > 0;
      var m := LargestCount(t.Keys, k, h);
      CreditBounds(t, order, (k, m));
      assert Kept(t, order, 1, (k, m));
    }
    CoveredIsRemoved(f, kept, lists[n]);
  }

  // ---- what the counts mean ----

  /** The places of the entries with the key. */
  function PlacesOf(f: Extractor, entries: seq<Entry>, k: Key): set<nat> {
    set i: nat | i < |entries| && f(entries[i]) == k
  }

  /** A key occurs as often as there are places with an entry that has it. */
  lemma {:induction false} OccursIsCount(f: Extractor, entries: seq<Entry>, k: Key)
    ensures Occurs(f, entries, k) == |PlacesOf(f, entries, k)|
  {
    if entries != [] {
      var n: nat := |entries| - 1;
      OccursIsCount(f, entries[..n], k);
      assert PlacesOf(f, entries, k) == PlacesOf(f, entries[..n], k) + if f(entries[n]) == k then {n} else {};
    }
  }

  predicate HasCount(f: Extractor, entries: seq<Entry>, k: Key, h: nat, exactly: bool) {
    if exactly then Occurs(f, entries, k) == h else Occurs(f, entries, k) >= h
  }

  /** The lists in which the key occurs at least h times, and those in which it occurs exactly h times. */
  function ListsWith(f: Extractor, lists: seq<seq<Entry>>, k: Key, h: nat, exactly: bool): set<nat> {
    set i: nat | i < |lists| && HasCount(f, lists[i], k, h, exactly)
  }

  lemma OneMoreList(f: Extractor, lists: seq<seq<Entry>>, k: Key, h: nat, exactly: bool)
    requires lists != []
    ensures var n: nat := |lists| - 1;
            |ListsWith(f, lists, k, h, exactly)|
            == |ListsWith(f, lists[..n], k, h, exactly)| + if HasCount(f, lists[n], k, h, exactly) then 1 else 0
  {
    var n: nat := |lists| - 1;
    assert ListsWith(f, lists, k, h, exactly)
        == ListsWith(f, lists[..n], k, h, exactly) + if HasCount(f, lists[n], k, h, exactly) then {n} else {};
  }

  /** Each of them is counted once. */
  lemma {:induction false} ListsAreCounted(f: Extractor, lists: seq<seq<Entry>>, k: Key, h: nat)
    ensures AtLeast(f, lists, k, h) == |ListsWith(f, lists, k, h, false)|
    ensures Exactly(f, lists, k, h) == |ListsWith(f, lists, k, h, true)|
  {
    if lists != [] {
      ListsAreCounted(f, lists[..|lists| - 1], k, h);
      OneMoreList(f, lists, k, h, false);
      OneMoreList(f, lists, k, h, true);
    }
  }
}
