/** The disk-introspection server's list of connected machines: a doubly linked list on the heap,
    refining a sequence of records, which in turn refines one small history per machine id. */
module VmRegistry {
  import opened Prelude

  datatype Name = Name(text: string)

  /** `file` is the disk image's name, once the meta record has arrived; `fd` the forwarding socket. */
  datatype Record = Record(id: nat, file: Option<Name>, fd: int)

  datatype Table = Table(records: seq<Record>, nextId: nat)

  datatype Op = Create | Remove(id: int) | SetFile(id: int, name: Name) | SetFd(id: int, fd: int)

  const NO_SOCKET := -1

  ghost predicate Ordered(records: seq<Record>, bound: nat) {
    && (forall i, j :: 0 <= i < j < |records| ==> records[i].id < records[j].id)
    && (forall i :: 0 <= i < |records| ==> records[i].id < bound)
  }

  function Without(records: seq<Record>, id: int): seq<Record> {
    if records == [] then [] else
    var rest, last := records[..|records| - 1], records[|records| - 1];
    if last.id == id then Without(rest, id) else Without(rest, id) + [last]
  }

  function WithFile(r: Record, id: int, name: Name): Record {
    if r.id == id then r.(file := Some(name)) else r
  }

  function WithFd(r: Record, id: int, fd: int): Record {
    if r.id == id then r.(fd := fd) else r
  }

  function Apply(t: Table, op: Op): Table {
    match op
    case Create => Table(t.records + [Record(t.nextId, None, NO_SOCKET)], t.nextId + 1)
    case Remove(id) => t.(records := Without(t.records, id))
    case SetFile(id, name) =>
      t.(records := seq(|t.records|, i requires 0 <= i < |t.records| => WithFile(t.records[i], id, name)))
    case SetFd(id, fd) =>
      t.(records := seq(|t.records|, i requires 0 <= i < |t.records| => WithFd(t.records[i], id, fd)))
  }

  function Run(ops: seq<Op>): Table {
    if ops == [] then Table([], 0) else Apply(Run(ops[..|ops| - 1]), ops[|ops| - 1])
  }

  // ---- the linked list ----

  class Item {
    const id: nat
    var file: Option<Name>
    var fd: int
    var next: Item?
    var prev: Item?

    constructor (id: nat)
      ensures this.id == id && file == None && fd == NO_SOCKET && next == null && prev == null
    {
      this.id, file, fd, next, prev := id, None, NO_SOCKET, null, null;
    }
  }

  ghost predicate Match(items: seq<Item>, records: seq<Record>)
    reads items`file, items`fd
  {
    |items| == |records| &&
    forall i :: 0 <= i < |items| ==> var item, r := items[i], records[i];
      item.id == r.id && item.file == r.file && item.fd == r.fd
  }

  lemma MatchWithout(items: seq<Item>, records: seq<Record>, k: nat)
    requires Match(items, records) && k < |items|
    ensures Match(items[..k] + items[k + 1..], records[..k] + records[k + 1..])
  {
  }

  lemma MatchWith(items: seq<Item>, records: seq<Record>, item: Item, r: Record)
    requires Match(items, records) && item.id == r.id && item.file == r.file && item.fd == r.fd
    ensures Match(items + [item], records + [r])
  {
  }

  lemma {:induction false} WithoutAbsent(records: seq<Record>, id: int)
    requires forall i :: 0 <= i < |records| ==> records[i].id != id
    ensures Without(records, id) == records
  {
    if records != [] {
      WithoutAbsent(records[..|records| - 1], id);
    }
  }

  lemma {:induction false} WithoutAt(records: seq<Record>, bound: nat, k: nat)
    requires Ordered(records, bound) && k < |records|
    ensures Without(records, records[k].id) == records[..k] + records[k + 1..]
  {
    var rest := records[..|records| - 1];
    if k == |records| - 1 {
      WithoutAbsent(rest, records[k].id);
    } else {
      WithoutAt(rest, bound, k);
      assert records[k + 1..] == rest[k + 1..] + [records[|records| - 1]];
    }
  }

  lemma {:induction false} WithoutContents(records: seq<Record>, bound: nat, id: int)
    requires Ordered(records, bound)
    ensures Ordered(Without(records, id), bound)
    ensures forall r :: r in Without(records, id) <==> r in records && r.id != id
  {
    if k :| 0 <= k < |records| && records[k].id == id {
      WithoutAt(records, bound, k);
      assert forall r :: r in records <==> r in records[..k] || r == records[k] || r in records[k + 1..];
    } else {
      WithoutAbsent(records, id);
    }
  }

  lemma ApplyOrdered(t: Table, op: Op)
    requires Ordered(t.records, t.nextId)
    ensures Ordered(Apply(t, op).records, Apply(t, op).nextId)
  {
    if op.Remove? {
      WithoutContents(t.records, t.nextId, op.id);
    }
  }

  lemma RemoveAt(t: Table, k: nat)
    requires Ordered(t.records, t.nextId) && k < |t.records|
    ensures Apply(t, Remove(t.records[k].id)) == t.(records := t.records[..k] + t.records[k + 1..])
    ensures Ordered(t.records[..k] + t.records[k + 1..], t.nextId)
  {
    WithoutAt(t.records, t.nextId, k);
  }

  lemma SplicedOut(items: seq<Item>, k: nat)
    requires k < |items| && forall i, j :: 0 <= i < j < |items| ==> items[i] != items[j]
    ensures forall i :: i in items[..k] + items[k + 1..] <==> i in items && i != items[k]
  {
    assert items == items[..k] + [items[k]] + items[k + 1..];
  }

  /** An update touches only the record with its id. */
  lemma UpdateAt(t: Table, op: Op, k: nat)
    requires Ordered(t.records, t.nextId) && k < |t.records|
    requires (op.SetFile? || op.SetFd?) && op.id == t.records[k].id
    ensures var r := if op.SetFile? then t.records[k].(file := Some(op.name)) else t.records[k].(fd := op.fd);
            Apply(t, op) == t.(records := t.records[k := r]) && Ordered(t.records[k := r], t.nextId)
  {
    var r := if op.SetFile? then t.records[k].(file := Some(op.name)) else t.records[k].(fd := op.fd);
    assert Apply(t, op).records == t.records[k := r];
  }

  lemma UpdateNone(t: Table, id: int, fd: int)
    requires forall i :: 0 <= i < |t.records| ==> t.records[i].id != id
    ensures Apply(t, SetFd(id, fd)) == t
  {
    assert Apply(t, SetFd(id, fd)).records == t.records;
  }

  lemma NothingToRemove(t: Table, id: int)
    requires forall i :: 0 <= i < |t.records| ==> t.records[i].id != id
    ensures Apply(t, Remove(id)) == t
  {
    WithoutAbsent(t.records, id);
  }

  lemma NothingToName(t: Table, id: int, name: Name)
    requires forall i :: 0 <= i < |t.records| ==> t.records[i].id != id
    ensures Apply(t, SetFile(id, name)) == t
  {
    assert Apply(t, SetFile(id, name)).records == t.records;
  }

  function Oldest(records: seq<Record>, name: Name): int {
    if records == [] then -1
    else if records[0].file == Some(name) then records[0].id
    else Oldest(records[1..], name)
  }

  class Registry {
    var head: Item?
    var tail: Item?
    var nextId: nat
    ghost var items: seq<Item>
    ghost var table: Table

    /** The links spell out `items` in both directions. */
    ghost predicate Linked()
      reads this`head, this`tail, this`items, items`next, items`prev
    {
      var n := |items|;
      && head == (if n == 0 then null else items[0])
      && tail == (if n == 0 then null else items[n - 1])
      && (forall i, j :: 0 <= i < j < n ==> items[i] != items[j])
      && (forall i, j :: 0 <= i < j < n && j == i + 1 ==> items[i].next == items[j] && items[j].prev == items[i])
      && (n > 0 ==> items[0].prev == null && items[n - 1].next == null)
    }

    /** The nodes hold the abstract table's records, whose ids grow along the list. */
    ghost predicate Holds()
      reads this`items, this`table, this`nextId, items`file, items`fd
    {
      nextId == table.nextId && Ordered(table.records, nextId) && Match(items, table.records)
    }

    ghost predicate Valid()
      reads this, items
    {
      Linked() && Holds()
    }

    constructor ()
      ensures Valid() && items == [] && table == Run([])
    {
      head, tail, nextId, items, table := null, null, 0, [], Table([], 0);
    }

    /** The pointer updates of an insertion. */
    method Append(item: Item)
      requires Linked() && item !in items && item.next == null && item.prev == null
      modifies this`head, this`tail, this`items, items`next, item`prev
      ensures Linked() && items == old(items) + [item]
    {
      if head == null {
        head := item;
      } else {
        tail.next := item;
        item.prev := tail;
      }
      tail := item;
      items := items + [item];
    }

    method CreateItem() returns (item: Item)
      requires Valid()
      modifies this, items
      ensures Valid() && fresh(item) && items == old(items) + [item]
      ensures table == Apply(old(table), Create)
    {
      ghost var was := items;
      ApplyOrdered(table, Create);
      item := new Item(nextId);
      table := Apply(table, Create);
      nextId := nextId + 1;
      Append(item);
      MatchWith(was, old(table.records), item, Record(item.id, None, NO_SOCKET));
    }

    /** The pointer updates of a removal, for the node at position k. */
    method Unlink(item: Item, ghost k: nat)
      requires Linked() && k < |items| && items[k] == item
      modifies this`head, this`tail, this`items, items`next, items`prev
      ensures Linked() && items == old(items)[..k] + old(items)[k + 1..]
      ensures item !in items && forall i :: i in items <==> i in old(items) && i != item
    {
      SplicedOut(items, k);
      assert k > 0 ==> item.prev == items[k - 1];
      assert k + 1 < |items| ==> item.next == items[k + 1];
      if head == item {
        head := item.next;
      }
      if tail == item {
        tail := item.prev;
      }
      if item.prev != null {
        item.prev.next := item.next;
      }
      if item.next != null {
        item.next.prev := item.prev;
      }
      items := items[..k] + items[k + 1..];
    }

    method RemoveItem(item: Item)
      requires Valid() && item in items
      modifies this, items
      ensures Valid() && item !in items && (forall i :: i in items <==> i in old(items) && i != item)
      ensures table == Apply(old(table), Remove(item.id))
    {
      ghost var k :| 0 <= k < |items| && items[k] == item;
      ghost var was, rows := items, table.records;
      RemoveAt(table, k);
      table := table.(records := rows[..k] + rows[k + 1..]);
      Unlink(item, k);
      assert Match(was, rows);
      MatchWithout(was, rows, k);
      assert Match(items, table.records);
    }

    method UpdateMetaData(item: Item, name: Name)
      requires Valid() && item in items
      modifies this`table, items`file
      ensures Valid() && items == old(items)
      ensures table == Apply(old(table), SetFile(item.id, name))
    {
      ghost var k :| 0 <= k < |items| && items[k] == item;
      UpdateAt(table, SetFile(item.id, name), k);
      item.file := Some(name);
      table := table.(records := table.records[k := table.records[k].(file := Some(name))]);
    }

    method UpdateForwardFd(id: int, fd: int)
      requires Valid()
      modifies this`table, items`fd
      ensures Valid() && items == old(items)
      ensures table == Apply(old(table), SetFd(id, fd))
    {
      var cur := head;
      ghost var k := 0;
      while cur != null && cur.id != id
        invariant 0 <= k <= |items|
        invariant cur == if k == |items| then null else items[k]
        invariant forall j :: 0 <= j < k ==> items[j].id != id
        decreases |items| - k
        modifies {}
      {
        cur, k := cur.next, k + 1;
      }
      if cur == null {
        UpdateNone(table, id, fd);
      } else {
        UpdateAt(table, SetFd(id, fd), k);
        cur.fd := fd;
        table := table.(records := table.records[k := table.records[k].(fd := fd)]);
      }
    }

    /** The node a connection's thread holds, by its id; null when there is none. */
    method NodeOf(id: int) returns (item: Item?)
      requires Valid()
      ensures item == null ==> forall i :: 0 <= i < |items| ==> items[i].id != id
      ensures item != null ==> item in items && item.id == id
    {
      item := head;
      ghost var k := 0;
      while item != null && item.id != id
        invariant 0 <= k <= |items| && item == if k == |items| then null else items[k]
        invariant forall j :: 0 <= j < k ==> items[j].id != id
        decreases |items| - k
      {
        item, k := item.next, k + 1;
      }
    }

    /** Any one operation; one on a machine that is not connected does nothing. */
    method Perform(op: Op)
      requires Valid()
      modifies this, items
      ensures Valid() && table == Apply(old(table), op)
      ensures forall k :: 0 <= k < |items| ==> items[k] in old(items) || fresh(items[k])
    {
      match op {
        case Create => var item := CreateItem();
        case SetFd(id, fd) => UpdateForwardFd(id, fd);
        case Remove(id) =>
          var item := NodeOf(id);
          if item == null {
            NothingToRemove(table, id);
          } else {
            RemoveItem(item);
          }
        case SetFile(id, name) =>
          var item := NodeOf(id);
          if item == null {
            NothingToName(table, id, name);
          } else {
            UpdateMetaData(item, name);
          }
      }
    }

    /** The oldest machine with that image, or -1. */
    method GetVmId(name: Name) returns (id: int)
      requires Valid()
      ensures id == Oldest(table.records, name)
    {
      id := -1;
      var cur := head;
      ghost var k := 0;
      while cur != null
        invariant 0 <= k <= |items| && cur == if k == |items| then null else items[k]
        invariant Oldest(table.records, name) == Oldest(table.records[k..], name)
        invariant id == -1
        decreases |items| - k
      {
        assert table.records[k..][1..] == table.records[k + 1..];
        if cur.file.Some? && cur.file.value == name {
          id := cur.id;
          return;
        }
        cur, k := cur.next, k + 1;
      }
    }
  }

  // ---- the sequence ----

  /** In every run the ids grow strictly along the list and are below the counter. */
  lemma {:induction false} RunOrdered(ops: seq<Op>)
    ensures Ordered(Run(ops).records, Run(ops).nextId)
  {
    if ops != [] {
      RunOrdered(ops[..|ops| - 1]);
      ApplyOrdered(Run(ops[..|ops| - 1]), ops[|ops| - 1]);
    }
  }

  // ---- one history per id ----

  function Creations(ops: seq<Op>): nat {
    if ops == [] then 0 else Creations(ops[..|ops| - 1]) + if ops[|ops| - 1].Create? then 1 else 0
  }

  /** The life of machine id alone: absent, then live from creation number id, then absent for good. */
  function Life(ops: seq<Op>, id: nat): Option<Record> {
    if ops == [] then None else
    var before, op := ops[..|ops| - 1], ops[|ops| - 1];
    var r := Life(before, id);
    match op
    case Create => if Creations(before) == id then Some(Record(id, None, -1)) else r
    case Remove(i) => if i == id then None else r
    case SetFile(i, name) => if i == id && r.Some? then Some(r.value.(file := Some(name))) else r
    case SetFd(i, fd) => if i == id && r.Some? then Some(r.value.(fd := fd)) else r
  }

  /** The list's record for id, if any, is the given one. */
  ghost predicate Shows(records: seq<Record>, id: nat, life: Option<Record>) {
    match life
    case None => forall i :: 0 <= i < |records| ==> records[i].id != id
    case Some(r) => r.id == id && r in records
  }

  lemma CreateShows(t: Table, id: nat, life: Option<Record>)
    requires Ordered(t.records, t.nextId) && Shows(t.records, id, life)
    ensures Shows(Apply(t, Create).records, id,
              if t.nextId == id then Some(Record(id, None, NO_SOCKET)) else life)
  {
    var made := Record(t.nextId, None, NO_SOCKET);
    assert Apply(t, Create).records[|t.records|] == made;
    assert life.Some? ==> life.value in Apply(t, Create).records;
  }

  lemma UpdateShows(t: Table, op: Op, id: nat, r: Record)
    requires op.SetFile? || op.SetFd?
    requires r in t.records && r.id == id
    ensures (if op.SetFile? then WithFile(r, op.id, op.name) else WithFd(r, op.id, op.fd)) in Apply(t, op).records
  {
    var i :| 0 <= i < |t.records| && t.records[i] == r;
    assert Apply(t, op).records[i] == if op.SetFile? then WithFile(r, op.id, op.name) else WithFd(r, op.id, op.fd);
  }

  /** In every run the list holds exactly one record for each live machine, with that machine's own
      history, and the id counter is the number of creations. */
  lemma {:induction false} ListIsLives(ops: seq<Op>, id: nat)
    ensures Run(ops).nextId == Creations(ops)
    ensures Shows(Run(ops).records, id, Life(ops, id))
  {
    if ops != [] {
      var before, op := ops[..|ops| - 1], ops[|ops| - 1];
      var t, life := Run(before), Life(before, id);
      ListIsLives(before, id);
      RunOrdered(before);
      if op.Create? {
        CreateShows(t, id, life);
      } else if op.Remove? {
        WithoutContents(t.records, t.nextId, op.id);
        assert forall i :: 0 <= i < |t.records| ==> t.records[i] in t.records;
        var left := Without(t.records, op.id);
        assert forall i :: 0 <= i < |left| ==> left[i] in left;
      } else if life.Some? {
        UpdateShows(t, op, id, life.value);
      }
    }
  }

  lemma {:induction false} OldestIs(records: seq<Record>, bound: nat, name: Name)
    requires Ordered(records, bound)
    ensures var v := Oldest(records, name);
            && (v == -1 ==> forall r :: r in records ==> r.file != Some(name))
            && (v != -1 ==> v >= 0 && exists r :: r in records && r.id == v && r.file == Some(name))
            && (v != -1 ==> forall r :: r in records && r.id < v ==> r.file != Some(name))
  {
    if records != [] {
      var rest := records[1..];
      OldestIs(rest, bound, name);
      assert records[0] in records;
      assert forall r :: r in records ==> r == records[0] || r in rest;
      assert forall r :: r in rest ==> r in records;
      assert forall i :: 0 <= i < |rest| ==> rest[i] == records[i + 1];
    }
  }

  predicate Uses(ops: seq<Op>, id: nat, name: Name) {
    Life(ops, id).Some? && Life(ops, id).value.file == Some(name)
  }

  lemma OnlyOne(t: Table, id: nat, life: Option<Record>, r: Record)
    requires Ordered(t.records, t.nextId) && Shows(t.records, id, life) && r in t.records && r.id == id
    ensures life == Some(r)
  {
    var i :| 0 <= i < |t.records| && t.records[i] == r;
    if life.Some? {
      var j :| 0 <= j < |t.records| && t.records[j] == life.value;
      assert i == j;
    }
  }

  /** After every run the lookup answers the lowest id, that is the oldest live machine, using the
      image, and -1 exactly when there is none. */
  lemma LookupIsOldestLife(ops: seq<Op>, name: Name)
    ensures var v := Oldest(Run(ops).records, name);
            && (v == -1 <==> forall id: nat :: !Uses(ops, id, name))
            && (v != -1 ==> v >= 0 && Uses(ops, v, name) && forall id: nat :: id < v ==> !Uses(ops, id, name))
  {
    var t := Run(ops);
    var v := Oldest(t.records, name);
    RunOrdered(ops);
    OldestIs(t.records, t.nextId, name);
    forall id: nat ensures Shows(t.records, id, Life(ops, id)) {
      ListIsLives(ops, id);
    }
    assert forall id: nat :: Uses(ops, id, name) ==> Life(ops, id).value in t.records;
    if v != -1 {
      var r :| r in t.records && r.id == v && r.file == Some(name);
      OnlyOne(t, v, Life(ops, v), r);
      assert Uses(ops, v, name);
    }
  }

  /** A removed machine never comes back, whatever ids later operations name. */
  lemma {:induction false} RemovedForGood(before: seq<Op>, after: seq<Op>, id: nat)
    requires id < Creations(before) && Life(before, id).None?
    ensures Life(before + after, id).None? && id < Creations(before + after)
  {
    if after == [] {
      assert before + after == before;
    } else {
      var all := before + after;
      RemovedForGood(before, after[..|after| - 1], id);
      assert all[..|all| - 1] == before + after[..|after| - 1];
    }
  }

  /** The heap list over any sequence of operations, from empty: it holds what the run says, so a lookup
      gives the oldest live machine using the image, or -1 if there is none. */
  method PerformAll(ops: seq<Op>, name: Name) returns (registry: Registry, id: int)
    ensures registry.Valid() && registry.table == Run(ops)
    ensures id == -1 <==> forall i: nat :: !Uses(ops, i, name)
    ensures id != -1 ==> id >= 0 && Uses(ops, id, name) && forall i: nat :: i < id ==> !Uses(ops, i, name)
  {
    registry := new Registry();
    for n := 0 to |ops|
      invariant fresh(registry) && registry.Valid() && registry.table == Run(ops[..n])
      invariant fresh(registry.items)
    {
      assert ops[..n + 1][..n] == ops[..n];
      registry.Perform(ops[n]);
    }
    assert ops[..|ops|] == ops;
    id := registry.GetVmId(name);
    LookupIsOldestLife(ops, name);
  }
}
