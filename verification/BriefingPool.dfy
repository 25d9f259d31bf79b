/** The briefing's needs-you pool (`briefing.py`): what systems and rooms contribute, deduplicated
    and sorted. Which system a room names is a parameter. */
module BriefingPool {
  import opened PyText

  datatype Item = Item(id: string, at: Option<real>, rank: Option<int>, title: string, detail: Option<string>)

  /** An entry of a room's `needs_you`; an empty id or title stands for a missing one. */
  datatype Need = Need(id: string, title: string, why: Option<string>, created: Option<real>)

  /** A room row; a need that is not an object is None. */
  datatype Row = Row(id: string, needs: seq<Option<Need>>)

  datatype System = System(id: string, haveTos: seq<Item>)

  /** The system a room id names, if any. */
  type Names = string -> Option<string>

  const ROOM_NEED_RANK := 1

  // ---- contributions ----

  function Clip(text: string, limit: nat): Option<string> {
    var t := Strip(text);
    if t == "" then None else Some(if |t| <= limit then t else t[..limit])
  }

  function NeedItem(system: string, need: Need, i: nat): Item {
    var title := Clip(if need.title == "" then "Needs you" else need.title, 120);
    Item(system + ":" + (if need.id == "" then "need-" + Decimal(i) else need.id),
         need.created, Some(ROOM_NEED_RANK),
         if title.Some? then title.value else "Untitled",
         if need.why.Some? then Clip(need.why.value, 600) else None)
  }

  function NeedItems(system: string, needs: seq<Option<Need>>): seq<Item> {
    if needs == [] then []
    else
      var i := |needs| - 1;
      NeedItems(system, needs[..i]) + if needs[i].Some? then [NeedItem(system, needs[i].value, i)] else []
  }

  method RoomNeedItems(system: string, needs: seq<Option<Need>>) returns (items: seq<Item>)
    ensures items == NeedItems(system, needs)
  {
    items := [];
    for i := 0 to |needs|
      invariant items == NeedItems(system, needs[..i])
    {
      assert needs[..i + 1][..i] == needs[..i];
      if needs[i].None? {
        continue;
      }
      items := items + [NeedItem(system, needs[i].value, i)];
    }
    assert needs[..|needs|] == needs;
  }

  /** The first row that names the system. */
  function FirstRow(names: Names, rows: seq<Row>, system: string): Option<Row> {
    if rows == [] then None
    else if names(rows[0].id) == Some(system) then Some(rows[0])
    else FirstRow(names, rows[1..], system)
  }

  function HaveTosOf(names: Names, s: System, rows: seq<Row>): seq<Item> {
    var row := FirstRow(names, rows, s.id);
    if row.Some? then Newest(NeedItems(s.id, row.value.needs)) else s.haveTos
  }

  /** The items of every element, one after another. */
  function Flat<T>(itemsOf: T -> seq<Item>, xs: seq<T>): seq<Item> {
    if xs == [] then [] else Flat(itemsOf, xs[..|xs| - 1]) + itemsOf(xs[|xs| - 1])
  }

  lemma FlatNext<T>(itemsOf: T -> seq<Item>, xs: seq<T>, i: nat)
    requires i < |xs|
    ensures Flat(itemsOf, xs[..i + 1]) == Flat(itemsOf, xs[..i]) + itemsOf(xs[i])
  {
    assert xs[..i + 1][..i] == xs[..i];
  }

  function SystemItems(names: Names, systems: seq<System>, rows: seq<Row>): seq<Item> {
    Flat((s: System) => HaveTosOf(names, s, rows), systems)
  }

  function SystemOf(names: Names, row: Row): string {
    var named := names(row.id);
    if named.Some? then named.value else if row.id == "" then "room" else row.id
  }

  function ItemsOf(names: Names): Row -> seq<Item> { (row: Row) => NeedItems(SystemOf(names, row), row.needs) }

  function RoomItems(names: Names, rows: seq<Row>): seq<Item> { Flat(ItemsOf(names), rows) }

  function Contributed(names: Names, systems: seq<System>, rows: seq<Row>): seq<Item> {
    SystemItems(names, systems, rows) + RoomItems(names, rows)
  }

  // ---- dropping repeated ids ----

  predicate HasId(pool: seq<Item>, id: string) { exists i :: 0 <= i < |pool| && pool[i].id == id }

  /** The position of the first item with this id. */
  function First(pool: seq<Item>, id: string): (k: nat)
    requires HasId(pool, id)
    ensures k < |pool| && pool[k].id == id
    ensures forall j :: 0 <= j < k ==> pool[j].id != id
  {
    if pool[0].id == id then 0
    else
      assert HasId(pool[1..], id) by {
        var i :| 0 <= i < |pool| && pool[i].id == id;
        assert pool[1..][i - 1].id == id;
      }
      1 + First(pool[1..], id)
  }

  function Deduped(pool: seq<Item>): seq<Item> {
    if pool == [] then []
    else
      var front, last := pool[..|pool| - 1], pool[|pool| - 1];
      Deduped(front) + if HasId(front, last.id) then [] else [last]
  }

  method Dedupe(pool: seq<Item>) returns (kept: seq<Item>)
    ensures kept == Deduped(pool)
  {
    var seen: set<string> := {};
    kept := [];
    for i := 0 to |pool|
      invariant kept == Deduped(pool[..i])
      invariant forall id :: id in seen <==> HasId(pool[..i], id)
    {
      assert pool[..i + 1][..i] == pool[..i];
      if pool[i].id in seen {
        continue;
      }
      seen := seen + {pool[i].id};
      kept := kept + [pool[i]];
    }
    assert pool[..|pool|] == pool;
  }

  /** The item is the first one contributed under its id. */
  predicate IsFirst(pool: seq<Item>, x: Item) { HasId(pool, x.id) && pool[First(pool, x.id)] == x }

  predicate Contributes(pool: seq<Item>, a: Item, b: Item) {
    HasId(pool, a.id) && HasId(pool, b.id) && First(pool, a.id) < First(pool, b.id)
  }

  lemma FirstOfFront(pool: seq<Item>, id: string)
    requires pool != [] && HasId(pool[..|pool| - 1], id)
    ensures HasId(pool, id) && First(pool, id) == First(pool[..|pool| - 1], id)
  {
    var k := First(pool[..|pool| - 1], id);
    assert pool[k].id == id;
    assert forall j :: 0 <= j < k ==> pool[j] == pool[..|pool| - 1][j];
  }

  /** In the order they were contributed. */
  function Given(pool: seq<Item>): Order { (a, b) => Contributes(pool, a, b) }

  lemma FirstOfLast(pool: seq<Item>)
    requires pool != [] && !HasId(pool[..|pool| - 1], pool[|pool| - 1].id)
    ensures HasId(pool, pool[|pool| - 1].id) && First(pool, pool[|pool| - 1].id) == |pool| - 1
  {
    var front, last := pool[..|pool| - 1], pool[|pool| - 1];
    assert forall j :: 0 <= j < |front| ==> front[j].id != last.id;
    assert pool[|pool| - 1].id == last.id;
    assert forall j :: 0 <= j < |front| ==> pool[j] == front[j];
  }

  /** Nothing new is first under an id that came before. */
  lemma FirstsOfFront(pool: seq<Item>, id: string)
    requires pool != []
    ensures var front, last := pool[..|pool| - 1], pool[|pool| - 1];
            HasId(pool, id) <==> HasId(front, id) || id == last.id
    ensures var front := pool[..|pool| - 1];
            HasId(pool, id) ==> First(pool, id) == if HasId(front, id) then First(front, id) else |front|
  {
    assert pool[..|pool| - 1 + 1] == pool;
    if HasId(pool[..|pool| - 1], id) {
      FirstOfFront(pool, id);
    } else if id == pool[|pool| - 1].id {
      FirstOfLast(pool);
    }
  }

  lemma {:induction false} DedupedKeepsFirsts(pool: seq<Item>)
    ensures forall x :: x in Deduped(pool) <==> IsFirst(pool, x)
  {
    if pool != [] {
      var front := pool[..|pool| - 1];
      DedupedKeepsFirsts(front);
      forall x ensures x in Deduped(pool) <==> IsFirst(pool, x) {
        FirstsOfFront(pool, x.id);
        FirstsOfFront(pool, pool[|pool| - 1].id);
        if HasId(front, x.id) { assert front[First(front, x.id)] == pool[First(pool, x.id)]; }
      }
    }
  }

  lemma {:induction false} DedupedInOrder(pool: seq<Item>)
    ensures InOrder(Deduped(pool), Given(pool))
  {
    if pool != [] {
      var front := pool[..|pool| - 1];
      var d := Deduped(front);
      DedupedInOrder(front);
      DedupedKeepsFirsts(front);
      FirstsOfFront(pool, pool[|pool| - 1].id);
      forall i | 0 <= i < |d|
        ensures HasId(front, d[i].id) && HasId(pool, d[i].id) && First(pool, d[i].id) == First(front, d[i].id)
      {
        assert d[i] in d;
        FirstsOfFront(pool, d[i].id);
      }
      forall i, j | 0 <= i < j < |Deduped(pool)| ensures Given(pool)(Deduped(pool)[i], Deduped(pool)[j]) {
        if j < |d| { assert Given(front)(d[i], d[j]); }
      }
    }
  }

  // ---- sorting ----

  type Order = (Item, Item) -> bool

  /** Everything is in strict order: earlier before later. */
  ghost predicate InOrder(items: seq<Item>, before: Order) {
    forall i, j :: 0 <= i < j < |items| ==> before(items[i], items[j])
  }

  function Insert(sorted: seq<Item>, x: Item, before: Order): seq<Item> {
    if sorted == [] || !before(x, sorted[|sorted| - 1]) then sorted + [x]
    else Insert(sorted[..|sorted| - 1], x, before) + [sorted[|sorted| - 1]]
  }

  /** `list.sort`: equal items keep their order. */
  function StableSort(items: seq<Item>, before: Order): seq<Item> {
    if items == [] then []
    else Insert(StableSort(items[..|items| - 1], before), items[|items| - 1], before)
  }

  predicate Newer(a: Item, b: Item) { a.at.Some? && (b.at.None? || a.at.value > b.at.value) }

  function Rank(a: Item): int { if a.rank.Some? then a.rank.value else 9 }

  predicate MoreImportant(a: Item, b: Item) { Rank(a) < Rank(b) }

  function Newest(items: seq<Item>): seq<Item> { StableSort(items, Newer) }

  function Pooled(pool: seq<Item>): seq<Item> { StableSort(Newest(Deduped(pool)), MoreImportant) }

  method PoolHaveTos(names: Names, systems: seq<System>, rows: seq<Row>) returns (pool: seq<Item>)
    ensures pool == Pooled(Contributed(names, systems, rows))
  {
    pool := ReadSystems(names, systems, rows);
    pool := ReadRooms(names, rows, pool);
    pool := Dedupe(pool);
    pool := StableSort(pool, Newer);
    pool := StableSort(pool, MoreImportant);
  }

  method ReadRooms(names: Names, rows: seq<Row>, before: seq<Item>) returns (pool: seq<Item>)
    ensures pool == before + RoomItems(names, rows)
  {
    pool := before;
    for i := 0 to |rows|
      invariant pool == before + Flat(ItemsOf(names), rows[..i])
    {
      FlatNext(ItemsOf(names), rows, i);
      var items := RoomNeedItems(SystemOf(names, rows[i]), rows[i].needs);
      pool := pool + items;
    }
    assert rows[..|rows|] == rows;
  }

  method ReadSystems(names: Names, systems: seq<System>, rows: seq<Row>) returns (pool: seq<Item>)
    ensures pool == SystemItems(names, systems, rows)
  {
    var named := RowsBySystem(names, rows);
    ghost var itemsOf := (s: System) => HaveTosOf(names, s, rows);
    pool := [];
    for i := 0 to |systems|
      invariant pool == Flat(itemsOf, systems[..i])
    {
      FlatNext(itemsOf, systems, i);
      var s := systems[i];
      var items := s.haveTos;
      if s.id in named {
        items := RoomNeedItems(s.id, named[s.id].needs);
        items := Newest(items);
      }
      assert items == itemsOf(s);
      pool := pool + items;
    }
    assert systems[..|systems|] == systems;
  }

  method RowsBySystem(names: Names, rows: seq<Row>) returns (named: map<string, Row>)
    ensures forall s :: FirstRow(names, rows, s) == if s in named then Some(named[s]) else None
  {
    named := map[];
    for i := 0 to |rows|
      invariant forall s :: FirstRow(names, rows[..i], s) == if s in named then Some(named[s]) else None
    {
      forall s ensures FirstRow(names, rows[..i + 1], s) ==
                       if FirstRow(names, rows[..i], s).Some? then FirstRow(names, rows[..i], s)
                       else if names(rows[i].id) == Some(s) then Some(rows[i]) else None
      {
        assert rows[..i + 1] == rows[..i] + [rows[i]];
        FirstRowSnoc(names, rows[..i], rows[i], s);
      }
      var s := names(rows[i].id);
      if s.Some? && s.value !in named {
        named := named[s.value := rows[i]];
      }
    }
    assert rows[..|rows|] == rows;
  }

  lemma FirstRowSnoc(names: Names, rows: seq<Row>, row: Row, s: string)
    ensures FirstRow(names, rows + [row], s) ==
            if FirstRow(names, rows, s).Some? then FirstRow(names, rows, s)
            else if names(row.id) == Some(s) then Some(row) else None
  {
    if rows != [] {
      assert (rows + [row])[1..] == rows[1..] + [row];
      FirstRowSnoc(names, rows[1..], row, s);
    }
  }

  // ---- what a stable sort does ----

  ghost predicate StrictWeak(before: Order) {
    && (forall a, b :: before(a, b) ==> !before(b, a))
    && (forall a, b, c :: before(a, c) ==> before(a, b) || before(b, c))
  }

  /** By `before`, and by `tie` among equals. */
  function Then(before: Order, tie: Order): Order {
    (a, b) => before(a, b) || (!before(b, a) && tie(a, b))
  }

  lemma {:induction false} InsertOrders(sorted: seq<Item>, x: Item, before: Order, tie: Order)
    requires StrictWeak(before) && InOrder(sorted, Then(before, tie))
    requires forall y :: y in sorted ==> tie(y, x)
    ensures InOrder(Insert(sorted, x, before), Then(before, tie))
    ensures forall y :: y in Insert(sorted, x, before) <==> y in sorted || y == x
    ensures |Insert(sorted, x, before)| == |sorted| + 1
  {
    if sorted != [] {
      var front, last := sorted[..|sorted| - 1], sorted[|sorted| - 1];
      assert sorted == front + [last];
      if before(x, last) {
        InsertOrders(front, x, before, tie);
        forall y | y in Insert(front, x, before) ensures Then(before, tie)(y, last) {
          if y != x {
            var i :| 0 <= i < |front| && front[i] == y;
            assert sorted[i] == y && sorted[|sorted| - 1] == last;
          }
        }
      } else {
        forall i | 0 <= i < |sorted| ensures Then(before, tie)(sorted[i], x) {
          assert i < |front| ==> Then(before, tie)(sorted[i], last);
        }
      }
    }
  }

  /** A stable sort by `before` of a list in the order `tie` is in the order "by `before`, then by
      `tie`", and holds the same items. */
  lemma {:induction false} StableSortOrders(items: seq<Item>, before: Order, tie: Order)
    requires StrictWeak(before) && InOrder(items, tie)
    ensures InOrder(StableSort(items, before), Then(before, tie))
    ensures forall x :: x in StableSort(items, before) <==> x in items
    ensures |StableSort(items, before)| == |items|
  {
    if items != [] {
      var front, last := items[..|items| - 1], items[|items| - 1];
      assert items == front + [last];
      StableSortOrders(front, before, tie);
      forall y | y in StableSort(front, before) ensures tie(y, last) {
        var i :| 0 <= i < |front| && front[i] == y;
        assert items[i] == y && items[|items| - 1] == last;
      }
      InsertOrders(StableSort(front, before), last, before, tie);
    }
  }

  // ---- the pool ----

  /** The briefing's one order: lower rank first; then dated before undated and newer before older;
      then as contributed. */
  predicate Before(pool: seq<Item>, a: Item, b: Item) {
    || Lower(a, b)
    || (!Lower(b, a) && (Newer(a, b) || (a.at == b.at && Contributes(pool, a, b))))
  }

  /** The first has the lower rank; to have none counts as nine. */
  predicate Lower(a: Item, b: Item) {
    match (a.rank, b.rank)
    case (Some(r), Some(s)) => r < s
    case (Some(r), None) => r < 9
    case (None, Some(s)) => 9 < s
    case (None, None) => false
  }

  /** Two lists of the same items in one strict order are the same list. */
  lemma {:induction false} OneOrder(xs: seq<Item>, ys: seq<Item>, before: Order)
    requires InOrder(xs, before) && InOrder(ys, before)
    requires forall x :: x in xs <==> x in ys
    requires forall a, b :: before(a, b) ==> !before(b, a)
    ensures xs == ys
  {
    assert |xs| > 0 ==> xs[0] in xs;
    assert |ys| > 0 ==> ys[0] in ys;
    if xs != [] && ys != [] {
      assert xs[0] == ys[0];
      forall x ensures x in xs[1..] <==> x in ys[1..] {
        if x in xs[1..] { assert x in xs && before(xs[0], x); }
        if x in ys[1..] { assert x in ys && before(ys[0], x); }
      }
      OneOrder(xs[1..], ys[1..], before);
      assert xs == [xs[0]] + xs[1..] && ys == [ys[0]] + ys[1..];
    }
  }

  /** The order the two sorts leave. */
  function Sorted(pool: seq<Item>): Order { Then(MoreImportant, Then(Newer, Given(pool))) }

  lemma LowerIs(a: Item, b: Item)
    ensures Lower(a, b) <==> MoreImportant(a, b)
  {
  }

  lemma AsNew(a: Item, b: Item)
    ensures a.at == b.at <==> !Newer(a, b) && !Newer(b, a)
  {
  }

  lemma SortedIsBefore(pool: seq<Item>, a: Item, b: Item)
    requires Sorted(pool)(a, b)
    ensures Before(pool, a, b)
  {
    LowerIs(a, b);
    LowerIs(b, a);
    AsNew(a, b);
  }

  lemma StillInOrder(items: seq<Item>, before: Order, also: Order)
    requires InOrder(items, before) && forall a, b :: before(a, b) ==> also(a, b)
    ensures InOrder(items, also)
  {
  }

  lemma PooledSorted(pool: seq<Item>)
    ensures forall x :: x in Pooled(pool) <==> x in Deduped(pool)
    ensures InOrder(Pooled(pool), Sorted(pool))
  {
    DedupedInOrder(pool);
    StableSortOrders(Deduped(pool), Newer, Given(pool));
    StableSortOrders(Newest(Deduped(pool)), MoreImportant, Then(Newer, Given(pool)));
  }

  lemma PooledOrders(pool: seq<Item>)
    ensures forall x :: x in Pooled(pool) <==> IsFirst(pool, x)
    ensures InOrder(Pooled(pool), (a, b) => Before(pool, a, b))
  {
    DedupedKeepsFirsts(pool);
    PooledSorted(pool);
    forall a, b | Sorted(pool)(a, b) ensures Before(pool, a, b) {
      SortedIsBefore(pool, a, b);
    }
    StillInOrder(Pooled(pool), Sorted(pool), (a, b) => Before(pool, a, b));
  }

  /** The two stable sorts make exactly one list of the deduplicated pool: the items that came
      first under their id, in the briefing's order. */
  lemma PooledExactly(pool: seq<Item>, r: seq<Item>)
    ensures r == Pooled(pool) <==>
            && (forall x :: x in r <==> IsFirst(pool, x))
            && InOrder(r, (a, b) => Before(pool, a, b))
  {
    PooledOrders(pool);
    if (forall x :: x in r <==> IsFirst(pool, x)) && InOrder(r, (a, b) => Before(pool, a, b)) {
      OneOrder(r, Pooled(pool), (a, b) => Before(pool, a, b));
    }
  }

  /** No id is listed twice, and every id anyone contributed is listed. */
  lemma PooledIds(pool: seq<Item>)
    ensures forall i, j :: 0 <= i < j < |Pooled(pool)| ==> Pooled(pool)[i].id != Pooled(pool)[j].id
    ensures forall id :: HasId(pool, id) <==> HasId(Pooled(pool), id)
  {
    PooledOrders(pool);
    var r := Pooled(pool);
    forall i, j | 0 <= i < j < |r| ensures r[i].id != r[j].id {
      assert r[i] in r && r[j] in r && Before(pool, r[i], r[j]);
    }
    forall id ensures HasId(pool, id) <==> HasId(r, id) {
      if HasId(pool, id) {
        assert pool[First(pool, id)] in r;
      }
      if HasId(r, id) {
        var i :| 0 <= i < |r| && r[i].id == id;
        assert r[i] in r;
      }
    }
  }

  // ---- rooms ----

  lemma {:induction false} DedupedSkips(xs: seq<Item>, ys: seq<Item>, zs: seq<Item>)
    requires forall i :: 0 <= i < |ys| ==> HasId(xs, ys[i].id)
    ensures Deduped(xs + ys + zs) == Deduped(xs + zs)
  {
    if zs != [] {
      var front, last := zs[..|zs| - 1], zs[|zs| - 1];
      DedupedSkips(xs, ys, front);
      assert (xs + ys + zs)[..|xs + ys + zs| - 1] == xs + ys + front;
      assert (xs + zs)[..|xs + zs| - 1] == xs + front;
      HasIdJoin(xs + ys, front, last.id);
      HasIdJoin(xs, ys, last.id);
      HasIdJoin(xs, front, last.id);
      if HasId(ys, last.id) {
        var i :| 0 <= i < |ys| && ys[i].id == last.id;
      }
    } else if ys != [] {
      var front, last := ys[..|ys| - 1], ys[|ys| - 1];
      DedupedSkips(xs, front, []);
      assert (xs + ys + [])[..|xs + ys| - 1] == xs + front == xs + front + [];
      HasIdJoin(xs, front, last.id);
    } else {
      assert xs + ys + zs == xs + zs;
    }
  }

  lemma HasIdJoin(xs: seq<Item>, ys: seq<Item>, id: string)
    ensures HasId(xs + ys, id) <==> HasId(xs, id) || HasId(ys, id)
  {
    if HasId(xs, id) {
      var i :| 0 <= i < |xs| && xs[i].id == id;
      assert (xs + ys)[i].id == id;
    }
    if HasId(ys, id) {
      var i :| 0 <= i < |ys| && ys[i].id == id;
      assert (xs + ys)[|xs| + i].id == id;
    }
    if HasId(xs + ys, id) {
      var i :| 0 <= i < |xs + ys| && (xs + ys)[i].id == id;
      assert if i < |xs| then xs[i].id == id else ys[i - |xs|].id == id;
    }
  }

  lemma {:induction false} FlatJoin<T>(itemsOf: T -> seq<Item>, xs: seq<T>, ys: seq<T>)
    ensures Flat(itemsOf, xs + ys) == Flat(itemsOf, xs) + Flat(itemsOf, ys)
  {
    if ys == [] {
      assert xs + ys == xs;
    } else {
      var i := |ys| - 1;
      FlatJoin(itemsOf, xs, ys[..i]);
      assert (xs + ys)[..|xs + ys| - 1] == xs + ys[..i];
    }
  }

  lemma {:induction false} FlatHolds<T>(itemsOf: T -> seq<Item>, xs: seq<T>, k: nat, id: string)
    requires k < |xs| && HasId(itemsOf(xs[k]), id)
    ensures HasId(Flat(itemsOf, xs), id)
  {
    var i := |xs| - 1;
    HasIdJoin(Flat(itemsOf, xs[..i]), itemsOf(xs[i]), id);
    if k < i { FlatHolds(itemsOf, xs[..i], k, id); }
  }

  lemma NewestHolds(items: seq<Item>, id: string)
    requires HasId(items, id)
    ensures HasId(Newest(items), id)
  {
    StableSortOrders(items, Newer, (a, b) => true);
    assert items[First(items, id)] in Newest(items);
  }

  lemma SystemHoldsRoom(names: Names, systems: seq<System>, rows: seq<Row>, k: nat)
    requires k < |systems| && FirstRow(names, rows, systems[k].id).Some?
    ensures var mine := NeedItems(systems[k].id, FirstRow(names, rows, systems[k].id).value.needs);
            forall i :: 0 <= i < |mine| ==> HasId(SystemItems(names, systems, rows), mine[i].id)
  {
    var mine := NeedItems(systems[k].id, FirstRow(names, rows, systems[k].id).value.needs);
    forall i | 0 <= i < |mine| ensures HasId(SystemItems(names, systems, rows), mine[i].id) {
      NewestHolds(mine, mine[i].id);
      FlatHolds((s: System) => HaveTosOf(names, s, rows), systems, k, mine[i].id);
    }
  }

  /** The rows but the one at `j`. */
  function Others(rows: seq<Row>, j: nat): seq<Row>
    requires j < |rows|
  {
    rows[..j] + rows[j + 1..]
  }

  /** A room that took over a system is counted once: its own place in the list of rooms adds
      nothing to the pool. */
  lemma MatchedRoomCountsOnce(names: Names, systems: seq<System>, rows: seq<Row>, j: nat, k: nat)
    requires j < |rows| && k < |systems|
    requires FirstRow(names, rows, systems[k].id) == Some(rows[j])
    ensures Pooled(Contributed(names, systems, rows)) ==
            Pooled(SystemItems(names, systems, rows) + RoomItems(names, Others(rows, j)))
  {
    var own, s, row := SystemItems(names, systems, rows), systems[k].id, rows[j];
    SystemHoldsRoom(names, systems, rows, k);
    FirstRowNames(names, rows, s);
    var mine := NeedItems(s, row.needs);
    var before, after := RoomItems(names, rows[..j]), RoomItems(names, rows[j + 1..]);
    RoomItemsSplit(names, rows, j);
    FlatJoin(ItemsOf(names), rows[..j], rows[j + 1..]);
    PooledSkips(own, before, mine, after);
  }

  lemma PooledSkips(own: seq<Item>, before: seq<Item>, mine: seq<Item>, after: seq<Item>)
    requires forall i :: 0 <= i < |mine| ==> HasId(own, mine[i].id)
    ensures Pooled(own + (before + mine + after)) == Pooled(own + (before + after))
  {
    assert own + (before + mine + after) == own + before + mine + after;
    assert own + (before + after) == own + before + after;
    forall i | 0 <= i < |mine| ensures HasId(own + before, mine[i].id) {
      HasIdJoin(own, before, mine[i].id);
    }
    DedupedSkips(own + before, mine, after);
  }

  lemma RoomItemsSplit(names: Names, rows: seq<Row>, j: nat)
    requires j < |rows|
    ensures RoomItems(names, rows) ==
            RoomItems(names, rows[..j]) + NeedItems(SystemOf(names, rows[j]), rows[j].needs)
            + RoomItems(names, rows[j + 1..])
  {
    assert rows == rows[..j + 1] + rows[j + 1..] && rows[..j + 1][..j] == rows[..j];
    FlatJoin(ItemsOf(names), rows[..j + 1], rows[j + 1..]);
  }

  lemma {:induction false} FirstRowNames(names: Names, rows: seq<Row>, s: string)
    requires FirstRow(names, rows, s).Some?
    ensures names(FirstRow(names, rows, s).value.id) == Some(s)
  {
    if names(rows[0].id) != Some(s) { FirstRowNames(names, rows[1..], s); }
  }

  lemma {:induction false} NeedIsItem(system: string, needs: seq<Option<Need>>, i: nat)
    requires i < |needs| && needs[i].Some?
    ensures NeedItem(system, needs[i].value, i) in NeedItems(system, needs)
  {
    if i < |needs| - 1 { NeedIsItem(system, needs[..|needs| - 1], i); }
  }

  lemma {:induction false} FlatMember<T>(itemsOf: T -> seq<Item>, xs: seq<T>, k: nat, item: Item)
    requires k < |xs| && item in itemsOf(xs[k])
    ensures item in Flat(itemsOf, xs)
  {
    if k < |xs| - 1 { FlatMember(itemsOf, xs[..|xs| - 1], k, item); }
  }

  /** A room's need is listed if and only if nothing else was contributed under its id before it. */
  lemma NeedListedIff(names: Names, systems: seq<System>, rows: seq<Row>, j: nat, i: nat)
    requires j < |rows| && i < |rows[j].needs| && rows[j].needs[i].Some?
    ensures var item := NeedItem(SystemOf(names, rows[j]), rows[j].needs[i].value, i);
            var pool := Contributed(names, systems, rows);
            && item in pool && HasId(pool, item.id)
            && (item in Pooled(pool) <==> pool[First(pool, item.id)] == item)
  {
    var system := SystemOf(names, rows[j]);
    var item := NeedItem(system, rows[j].needs[i].value, i);
    NeedIsItem(system, rows[j].needs, i);
    FlatMember(ItemsOf(names), rows, j, item);
    assert item in Contributed(names, systems, rows);
    PooledOrders(Contributed(names, systems, rows));
  }

  /** But two rooms of one system whose needs carry no ids collide: the second room's need is
      listed nowhere. */
  lemma SecondRoomsNeedIsLost(names: Names, s: string, mine: Need, other: Need)
    requires names("a") == names("b") == Some(s)
    requires mine.id == other.id == "" && mine.created != other.created
    ensures var pool := Contributed(names, [System(s, [])], [Row("a", [Some(mine)]), Row("b", [Some(other)])]);
            NeedItem(s, other, 0) in pool && NeedItem(s, other, 0) !in Pooled(pool)
  {
    var system, rows := System(s, []), [Row("a", [Some(mine)]), Row("b", [Some(other)])];
    var m, o := NeedItem(s, mine, 0), NeedItem(s, other, 0);
    OneNeed(s, mine);
    OneNeed(s, other);
    NewestOfOne(m);
    FlatOfOne((x: System) => HaveTosOf(names, x, rows), system);
    FlatOfOne(ItemsOf(names), rows[0]);
    FlatOfOne(ItemsOf(names), rows[1]);
    FlatJoin(ItemsOf(names), [rows[0]], [rows[1]]);
    assert rows == [rows[0]] + [rows[1]];
    var pool := [m, m, o];
    assert Contributed(names, [system], rows) == pool && pool[2] == o;
    OneIdOneItem(pool);
  }

  lemma FlatOfOne<T>(itemsOf: T -> seq<Item>, x: T)
    ensures Flat(itemsOf, [x]) == itemsOf(x)
  {
    assert [x][..0] == [];
  }

  lemma OneIdOneItem(pool: seq<Item>)
    requires pool != [] && forall i :: 0 <= i < |pool| ==> pool[i].id == pool[0].id
    ensures Pooled(pool) == [pool[0]]
  {
    assert HasId(pool, pool[0].id);
    forall x ensures IsFirst(pool, x) <==> x == pool[0] {
      if IsFirst(pool, x) { assert pool[First(pool, x.id)] == x; }
    }
    PooledExactly(pool, [pool[0]]);
  }

  lemma NewestOfOne(m: Item)
    ensures Newest([m]) == [m]
  {
    assert [m][..0] == [];
    assert StableSort([], Newer) == [];
  }

  lemma OneNeed(system: string, need: Need)
    ensures NeedItems(system, [Some(need)]) == [NeedItem(system, need, 0)]
  {
    assert [Some(need)][..0] == [];
    assert NeedItems(system, []) == [];
  }
}
