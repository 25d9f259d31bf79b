/** What goes into the briefing's needs-you pool (`get_briefing`): the items of every system and
    every room, in the order they are contributed. */
module Contributions {
  import opened BriefingPool
  import opened PyText

  // ---- the item of a need ----

  /** The text without the white space around it, cut behind `limit` characters. */
  predicate Shows(text: string, limit: nat, shown: string) {
    shown <= Strip(text) && |shown| <= limit && (|shown| < limit ==> shown == Strip(text))
  }

  /** What a room's need looks like in the pool; `i` is its place in the room's list. */
  predicate IsNeed(system: string, need: Need, i: nat, item: Item) {
    && item.id == system + ":" + (if need.id != "" then need.id else "need-" + Decimal(i))
    && item.at == need.created
    && item.rank == Some(1)
    && IsTitle(need.title, item.title)
    && match item.detail
       case None => need.why.None? || Strip(need.why.value) == ""
       case Some(detail) => need.why.Some? && detail != "" && Shows(need.why.value, 600, detail)
  }

  predicate IsTitle(title: string, shown: string) {
    if title == "" then shown == "Needs you"
    else if Strip(title) == "" then shown == "Untitled"
    else Shows(title, 120, shown)
  }

  lemma NeedMeans(system: string, need: Need, i: nat)
    ensures IsNeed(system, need, i, NeedItem(system, need, i))
  {
    NeedsYou();
  }

  lemma NeedsYou()
    ensures Clip("Needs you", 120) == Some("Needs you")
  {
    StripTrims("Needs you");
  }

  /** The items are those of the needs that are objects, in the room's order; `at` says where each
      need stands. */
  predicate Lists(system: string, needs: seq<Option<Need>>, items: seq<Item>, at: seq<nat>) {
    && |at| == |items|
    && (forall m :: 0 <= m < |at| ==>
          at[m] < |needs| && needs[at[m]].Some? && IsNeed(system, needs[at[m]].value, at[m], items[m]))
    && (forall m, n :: 0 <= m < n < |at| ==> at[m] < at[n])
    && (forall i :: 0 <= i < |needs| && needs[i].Some? ==> i in at)
  }

  lemma {:induction false} NeedsListed(system: string, needs: seq<Option<Need>>) returns (at: seq<nat>)
    ensures Lists(system, needs, NeedItems(system, needs), at)
  {
    at := [];
    if needs != [] {
      var i := |needs| - 1;
      var front := NeedsListed(system, needs[..i]);
      if needs[i].Some? {
        at := front + [i];
        NeedMeans(system, needs[i].value, i);
      } else {
        at := front;
      }
      NeedPushed(system, needs, NeedItems(system, needs[..i]), front);
    }
  }

  lemma NeedPushed(system: string, needs: seq<Option<Need>>, items: seq<Item>, at: seq<nat>)
    requires needs != [] && Lists(system, needs[..|needs| - 1], items, at)
    ensures needs[|needs| - 1].None? ==> Lists(system, needs, items, at)
    ensures var i := |needs| - 1;
            needs[i].Some? ==>
              Lists(system, needs, items + [NeedItem(system, needs[i].value, i)], at + [i])
  {
    var i := |needs| - 1;
    forall j | 0 <= j < i && needs[j].Some? ensures j in at {
      assert needs[..i][j] == needs[j];
    }
    if needs[i].Some? {
      NeedMeans(system, needs[i].value, i);
      OneMore(system, needs, items, at, NeedItem(system, needs[i].value, i));
    }
  }

  lemma OneMore(system: string, needs: seq<Option<Need>>, items: seq<Item>, at: seq<nat>, item: Item)
    requires needs != [] && Lists(system, needs[..|needs| - 1], items, at)
    requires var i := |needs| - 1; needs[i].Some? && IsNeed(system, needs[i].value, i, item)
    ensures Lists(system, needs, items + [item], at + [|needs| - 1])
  {
    var i := |needs| - 1;
    assert (at + [i])[|at|] == i;
    forall j | 0 <= j < |needs| && needs[j].Some? ensures j in at + [i] {
      if j < i { assert needs[..i][j] == needs[j] && j in at; }
    }
  }

  // ---- newest first ----

  /** The items of one date, in order. */
  function Dated(items: seq<Item>, at: Option<real>): seq<Item> {
    if items == [] then []
    else
      var last := items[|items| - 1];
      Dated(items[..|items| - 1], at) + if last.at == at then [last] else []
  }

  /** Dated before undated and newer before older; items of one date stay as they were. */
  ghost predicate NewestFirst(given: seq<Item>, items: seq<Item>) {
    && (forall i, j :: 0 <= i < j < |items| ==> !Newer(items[j], items[i]))
    && (forall at :: Dated(items, at) == Dated(given, at))
  }

  lemma {:induction false} DatedInsert(sorted: seq<Item>, x: Item, at: Option<real>)
    ensures Dated(Insert(sorted, x, Newer), at) == Dated(sorted, at) + if x.at == at then [x] else []
  {
    if sorted == [] || !Newer(x, sorted[|sorted| - 1]) {
      assert (sorted + [x])[..|sorted|] == sorted;
    } else {
      var front, last := sorted[..|sorted| - 1], sorted[|sorted| - 1];
      DatedInsert(front, x, at);
      var into := Insert(front, x, Newer);
      assert (into + [last])[..|into|] == into;
    }
  }

  lemma {:induction false} DatedNewest(items: seq<Item>, at: Option<real>)
    ensures Dated(Newest(items), at) == Dated(items, at)
  {
    if items != [] {
      var front := items[..|items| - 1];
      DatedNewest(front, at);
      DatedInsert(Newest(front), items[|items| - 1], at);
    }
  }

  lemma NewestMeans(items: seq<Item>)
    ensures NewestFirst(items, Newest(items))
  {
    var any: Order := (a, b) => true;
    StableSortOrders(items, Newer, any);
    forall i, j | 0 <= i < j < |Newest(items)| ensures !Newer(Newest(items)[j], Newest(items)[i]) {
      assert Then(Newer, any)(Newest(items)[i], Newest(items)[j]);
    }
    forall at ensures Dated(Newest(items), at) == Dated(items, at) {
      DatedNewest(items, at);
    }
  }

  // ---- systems and rooms ----

  predicate Unnamed(names: Names, rows: seq<Row>, system: string) {
    forall j :: 0 <= j < |rows| ==> names(rows[j].id) != Some(system)
  }

  /** The first row that names the system. */
  predicate Stands(names: Names, rows: seq<Row>, system: string, j: nat) {
    j < |rows| && names(rows[j].id) == Some(system) && Unnamed(names, rows[..j], system)
  }

  lemma {:induction false} UnnamedHasNoRow(names: Names, rows: seq<Row>, system: string)
    requires Unnamed(names, rows, system)
    ensures FirstRow(names, rows, system) == None
  {
    if rows != [] {
      assert names(rows[0].id) != Some(system);
      assert forall j :: 0 <= j < |rows[1..]| ==> rows[1..][j] == rows[j + 1];
      UnnamedHasNoRow(names, rows[1..], system);
    }
  }

  lemma {:induction false} StandingRow(names: Names, rows: seq<Row>, system: string, j: nat)
    requires Stands(names, rows, system, j)
    ensures FirstRow(names, rows, system) == Some(rows[j])
  {
    if j > 0 {
      assert names(rows[..j][0].id) != Some(system);
      assert rows[1..][..j - 1] == rows[..j][1..];
      StandingRow(names, rows[1..], system, j - 1);
    }
  }

  /** What a system contributes: its own items if no room names it, and otherwise what the first
      room that does needs, newest first. */
  ghost predicate Gives(names: Names, s: System, rows: seq<Row>, items: seq<Item>) {
    && (Unnamed(names, rows, s.id) ==> items == s.haveTos)
    && forall j: nat :: Stands(names, rows, s.id, j) ==> NeedsNewestFirst(s.id, rows[j].needs, items)
  }

  ghost predicate NeedsNewestFirst(system: string, needs: seq<Option<Need>>, items: seq<Item>) {
    exists given, at :: Lists(system, needs, given, at) && NewestFirst(given, items)
  }

  lemma GivesItems(names: Names, s: System, rows: seq<Row>)
    ensures Gives(names, s, rows, HaveTosOf(names, s, rows))
  {
    if Unnamed(names, rows, s.id) { UnnamedHasNoRow(names, rows, s.id); }
    forall j: nat | Stands(names, rows, s.id, j)
      ensures NeedsNewestFirst(s.id, rows[j].needs, HaveTosOf(names, s, rows))
    {
      StandingRow(names, rows, s.id, j);
      var at := NeedsListed(s.id, rows[j].needs);
      NewestMeans(NeedItems(s.id, rows[j].needs));
    }
  }

  /** What a room contributes: its needs, under the system it names, or under its own id. */
  ghost predicate RoomGives(names: Names, row: Row, items: seq<Item>) {
    exists system, at :: RoomIsOf(names, row, system) && Lists(system, row.needs, items, at)
  }

  predicate RoomIsOf(names: Names, row: Row, system: string) {
    match names(row.id)
    case Some(named) => system == named
    case None => system == if row.id != "" then row.id else "room"
  }

  lemma RoomGivesItems(names: Names, row: Row)
    ensures RoomGives(names, row, ItemsOf(names)(row))
  {
    var at := NeedsListed(SystemOf(names, row), row.needs);
    assert RoomIsOf(names, row, SystemOf(names, row));
  }

  // ---- the pool ----

  function Concat(parts: seq<seq<Item>>): seq<Item> {
    if parts == [] then [] else parts[0] + Concat(parts[1..])
  }

  /** Each element's items. */
  function Each<T>(itemsOf: T -> seq<Item>, xs: seq<T>): (parts: seq<seq<Item>>)
    ensures |parts| == |xs| && forall k :: 0 <= k < |xs| ==> parts[k] == itemsOf(xs[k])
  {
    if xs == [] then [] else [itemsOf(xs[0])] + Each(itemsOf, xs[1..])
  }

  lemma {:induction false} FlatConcat<T>(itemsOf: T -> seq<Item>, xs: seq<T>)
    ensures Flat(itemsOf, xs) == Concat(Each(itemsOf, xs))
  {
    if xs != [] {
      FlatConcat(itemsOf, xs[1..]);
      FlatJoin(itemsOf, [xs[0]], xs[1..]);
      FlatOfOne(itemsOf, xs[0]);
      assert [xs[0]] + xs[1..] == xs;
      assert Each(itemsOf, xs)[1..] == Each(itemsOf, xs[1..]);
    }
  }

  /** What is contributed, part by part: first every system, then every room. */
  lemma ContributedMeans(names: Names, systems: seq<System>, rows: seq<Row>)
    returns (own: seq<seq<Item>>, theirs: seq<seq<Item>>)
    ensures |own| == |systems| && forall k :: 0 <= k < |own| ==> Gives(names, systems[k], rows, own[k])
    ensures |theirs| == |rows| && forall j :: 0 <= j < |rows| ==> RoomGives(names, rows[j], theirs[j])
    ensures Contributed(names, systems, rows) == Concat(own) + Concat(theirs)
  {
    own := Each((s: System) => HaveTosOf(names, s, rows), systems);
    theirs := Each(ItemsOf(names), rows);
    FlatConcat((s: System) => HaveTosOf(names, s, rows), systems);
    FlatConcat(ItemsOf(names), rows);
    forall k | 0 <= k < |own| ensures Gives(names, systems[k], rows, own[k]) {
      GivesItems(names, systems[k], rows);
    }
    forall j | 0 <= j < |rows| ensures RoomGives(names, rows[j], theirs[j]) {
      RoomGivesItems(names, rows[j]);
    }
  }

  /** An item of a system that no room names is listed if and only if nothing else was contributed
      under its id before it. */
  lemma OwnItemListedIff(names: Names, systems: seq<System>, rows: seq<Row>, k: nat, i: nat)
    requires k < |systems| && Unnamed(names, rows, systems[k].id) && i < |systems[k].haveTos|
    ensures var item := systems[k].haveTos[i];
            var pool := Contributed(names, systems, rows);
            && item in pool && HasId(pool, item.id)
            && (item in Pooled(pool) <==> pool[First(pool, item.id)] == item)
  {
    var item := systems[k].haveTos[i];
    UnnamedHasNoRow(names, rows, systems[k].id);
    FlatMember((s: System) => HaveTosOf(names, s, rows), systems, k, item);
    var pool := Contributed(names, systems, rows);
    assert item in pool;
    PooledOrders(pool);
  }
}
