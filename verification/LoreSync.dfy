/** Syncing lore from a room into a person's world (`lore_sync.py`): what a sync would do, doing
    it, and the owner's confirmation. */
module LoreSync {
  import opened JsonValues
  import opened PyText

  datatype LoreState = Confirmed | Derived | Suggested | Ephemeral

  /** Where synced lore came from: the parts of its provenance text `source@revision:file`. */
  datatype Origin = Origin(source: string, revision: string, file: Json)

  datatype Lore = Lore(value: map<string, Json>, state: LoreState, origin: Origin)

  type LoreMap = map<string, Lore>

  /** A room's lore document; an empty name or revision stands for a missing one. */
  datatype Doc = Doc(name: string, revision: string, items: seq<Json>, skipped: Json) {
    function Source(): string { if name == "" then "lore" else name }
    function Revision(): string { if revision == "" then "unknown" else revision }
  }

  const VALUE_FIELDS: seq<string> := ["text", "title", "section", "status", "kind", "file"]

  // ---- reading the document ----

  type Item = map<string, Json>

  predicate Usable(j: Json) {
    && j.Dict?
    && Get(j.entries, "key").Str? && Get(j.entries, "key").s != ""
    && Get(j.entries, "text").Str? && Strip(Get(j.entries, "text").s) != ""
  }

  function Value(item: Item): map<string, Json> {
    map k | k in VALUE_FIELDS && !Get(item, k).Null? :: Get(item, k)
  }

  function Prefix(source: string): string { source + ":" }

  /** The usable items by key; of two items with one key, the later counts. */
  function Incoming(source: string, items: seq<Json>): map<string, Item> {
    if items == [] then map[]
    else
      var before, last := Incoming(source, items[..|items| - 1]), items[|items| - 1];
      if Usable(last) then before[Prefix(source) + Get(last.entries, "key").s := last.entries] else before
  }

  function IncomingOf(doc: Doc): map<string, Item> { Incoming(doc.Source(), doc.items) }

  method ReadIncoming(doc: Doc) returns (incoming: map<string, Item>)
    ensures incoming == IncomingOf(doc)
  {
    incoming := map[];
    for i := 0 to |doc.items|
      invariant incoming == Incoming(doc.Source(), doc.items[..i])
    {
      assert doc.items[..i + 1][..i] == doc.items[..i];
      var item := doc.items[i];
      if Usable(item) {
        incoming := incoming[doc.Source() + ":" + Get(item.entries, "key").s := item.entries];
      }
    }
    assert doc.items[..|doc.items|] == doc.items;
  }

  /** The incoming keys in the order a dictionary keeps them: each where it first stands. */
  function KeysIn(source: string, items: seq<Json>): seq<string> {
    if items == [] then []
    else
      var before, last := KeysIn(source, items[..|items| - 1]), items[|items| - 1];
      if Usable(last) && Prefix(source) + Get(last.entries, "key").s !in before
      then before + [Prefix(source) + Get(last.entries, "key").s] else before
  }

  function KeysOf(doc: Doc): seq<string> { KeysIn(doc.Source(), doc.items) }

  method ReadKeys(doc: Doc) returns (keys: seq<string>)
    ensures keys == KeysOf(doc)
  {
    keys := [];
    for i := 0 to |doc.items|
      invariant keys == KeysIn(doc.Source(), doc.items[..i])
    {
      assert doc.items[..i + 1][..i] == doc.items[..i];
      var item := doc.items[i];
      if Usable(item) && doc.Source() + ":" + Get(item.entries, "key").s !in keys {
        keys := keys + [doc.Source() + ":" + Get(item.entries, "key").s];
      }
    }
    assert doc.items[..|doc.items|] == doc.items;
  }

  // ---- plan and apply ----

  datatype Counts = Counts(added: nat, changed: nat, same: nat, kept: nat, gone: nat, acceptedWaiting: nat)

  /** The report of a sync. */
  datatype Plan = Plan(source: string, revision: string, skipped: Json,
                       added: seq<string>, changed: seq<string>, gone: set<string>, counts: Counts)

  predicate IsNew(lore: LoreMap, incoming: map<string, Item>, k: string) { k in incoming && k !in lore }

  predicate IsChanged(lore: LoreMap, incoming: map<string, Item>, k: string) {
    k in incoming && k in lore && lore[k].state != Confirmed && lore[k].value != Value(incoming[k])
  }

  predicate IsGone(lore: LoreMap, incoming: map<string, Item>, source: string, k: string) {
    && k in lore && Prefix(source) <= k && k !in incoming
    && lore[k].state != Confirmed && !Truthy(Get(lore[k].value, "gone"))
  }

  predicate IsSame(lore: LoreMap, incoming: map<string, Item>, k: string) {
    k in incoming && k in lore && lore[k].state != Confirmed && lore[k].value == Value(incoming[k])
  }

  predicate IsKept(lore: LoreMap, incoming: map<string, Item>, k: string) {
    k in incoming && k in lore && lore[k].state == Confirmed
  }

  predicate IsAccepted(incoming: map<string, Item>, k: string) {
    k in incoming && Get(incoming[k], "status") == Str("accepted")
  }

  function NewIn(lore: LoreMap, incoming: map<string, Item>): string -> bool { k => IsNew(lore, incoming, k) }
  function ChangedIn(lore: LoreMap, incoming: map<string, Item>): string -> bool { k => IsChanged(lore, incoming, k) }
  function SameIn(lore: LoreMap, incoming: map<string, Item>): string -> bool { k => IsSame(lore, incoming, k) }
  function KeptIn(lore: LoreMap, incoming: map<string, Item>): string -> bool { k => IsKept(lore, incoming, k) }
  function AcceptedIn(incoming: map<string, Item>): string -> bool { k => IsAccepted(incoming, k) }

  /** The keys with the property, in their order. */
  function Only(keys: seq<string>, p: string -> bool): seq<string> {
    if keys == [] then []
    else Only(keys[..|keys| - 1], p) + if p(keys[|keys| - 1]) then [keys[|keys| - 1]] else []
  }

  function Gone(lore: LoreMap, incoming: map<string, Item>, source: string): set<string> {
    set k | k in lore && IsGone(lore, incoming, source, k)
  }

  function PlanOf(lore: LoreMap, doc: Doc): Plan {
    var incoming, keys := IncomingOf(doc), KeysOf(doc);
    var added, changed := Only(keys, NewIn(lore, incoming)), Only(keys, ChangedIn(lore, incoming));
    var same, kept := Only(keys, SameIn(lore, incoming)), Only(keys, KeptIn(lore, incoming));
    var gone := Gone(lore, incoming, doc.Source());
    Plan(doc.Source(), doc.revision, if Truthy(doc.skipped) then doc.skipped else Dict(map[]), added, changed, gone,
         Counts(|added|, |changed|, |same|, |kept|, |gone|,
                |Only(added + changed + same, AcceptedIn(incoming))|))
  }

  function Synced(doc: Doc, item: Item): Lore {
    Lore(Value(item), Suggested,
         Origin(doc.Source(), doc.Revision(), if "file" in item then item["file"] else Str("")))
  }

  function MarkedGone(l: Lore): Lore { l.(value := l.value["gone" := Bool(true)]) }

  function Applied(lore: LoreMap, doc: Doc): LoreMap {
    var incoming := IncomingOf(doc);
    map k | k in lore.Keys + incoming.Keys ::
      if IsNew(lore, incoming, k) || IsChanged(lore, incoming, k) then Synced(doc, incoming[k])
      else if IsGone(lore, incoming, doc.Source(), k) then MarkedGone(lore[k])
      else lore[k]
  }

  function Promoted(lore: LoreMap, keys: seq<string>): LoreMap {
    map k | k in lore :: if k in keys then lore[k].(state := Confirmed) else lore[k]
  }

  /** The keys a confirmation promotes, each once and in the order they were named. */
  function Promotable(lore: LoreMap, keys: seq<string>): seq<string> {
    if keys == [] then []
    else
      var earlier, key := keys[..|keys| - 1], keys[|keys| - 1];
      var promoted := Promotable(lore, earlier);
      if key in lore && lore[key].state != Confirmed && key !in earlier then promoted + [key] else promoted
  }

  /** The loop that puts each incoming key into one of the four groups. */
  method Group(lore: LoreMap, incoming: map<string, Item>, keys: seq<string>)
    returns (added: seq<string>, changed: seq<string>, same: seq<string>, kept: seq<string>)
    requires forall k :: k in keys ==> k in incoming
    ensures added == Only(keys, NewIn(lore, incoming)) && changed == Only(keys, ChangedIn(lore, incoming))
    ensures same == Only(keys, SameIn(lore, incoming)) && kept == Only(keys, KeptIn(lore, incoming))
  {
    added, changed, same, kept := [], [], [], [];
    for i := 0 to |keys|
      invariant added == Only(keys[..i], NewIn(lore, incoming)) && changed == Only(keys[..i], ChangedIn(lore, incoming))
      invariant same == Only(keys[..i], SameIn(lore, incoming)) && kept == Only(keys[..i], KeptIn(lore, incoming))
    {
      var key := keys[i];
      OnlyNext(keys, i, NewIn(lore, incoming));
      OnlyNext(keys, i, ChangedIn(lore, incoming));
      OnlyNext(keys, i, SameIn(lore, incoming));
      OnlyNext(keys, i, KeptIn(lore, incoming));
      if key !in lore {
        added := added + [key];
      } else if lore[key].state == Confirmed {
        kept := kept + [key];
      } else if lore[key].value != Value(incoming[key]) {
        changed := changed + [key];
      } else {
        same := same + [key];
      }
    }
    assert keys[..|keys|] == keys;
  }

  lemma OnlyNext(keys: seq<string>, i: nat, p: string -> bool)
    requires i < |keys|
    ensures Only(keys[..i + 1], p) == if p(keys[i]) then Only(keys[..i], p) + [keys[i]] else Only(keys[..i], p)
  {
    assert keys[..i + 1][..i] == keys[..i];
  }

  method Pick(keys: seq<string>, p: string -> bool) returns (picked: seq<string>)
    ensures picked == Only(keys, p)
  {
    picked := [];
    for i := 0 to |keys|
      invariant picked == Only(keys[..i], p)
    {
      OnlyNext(keys, i, p);
      if p(keys[i]) {
        picked := picked + [keys[i]];
      }
    }
    assert keys[..|keys|] == keys;
  }

  class World {
    var lore: LoreMap

    constructor ()
      ensures lore == map[]
    {
      lore := map[];
    }

    method MakePlan(doc: Doc) returns (plan: Plan)
      ensures plan == PlanOf(lore, doc)
    {
      var incoming := ReadIncoming(doc);
      var keys := ReadKeys(doc);
      KeysAreIncoming(doc.Source(), doc.items);
      var added, changed, same, kept := Group(lore, incoming, keys);
      var gone := set k | k in lore && IsGone(lore, incoming, doc.Source(), k);
      var waiting := Pick(added + changed + same, AcceptedIn(incoming));
      plan := Plan(doc.Source(), doc.revision, if Truthy(doc.skipped) then doc.skipped else Dict(map[]),
                   added, changed, gone, Counts(|added|, |changed|, |same|, |kept|, |gone|, |waiting|));
    }

    method Apply(doc: Doc) returns (plan: Plan)
      modifies this
      ensures plan == PlanOf(old(lore), doc) && lore == Applied(old(lore), doc)
    {
      plan := MakePlan(doc);
      var incoming := ReadIncoming(doc);
      PlanMembers(lore, doc);
      AppliedInSteps(lore, doc);
      StoreItems(plan.added + plan.changed, doc, incoming);
      MarkGone(plan.gone);
    }

    method StoreItems(keys: seq<string>, doc: Doc, incoming: map<string, Item>)
      requires forall k :: k in keys ==> k in incoming
      modifies this
      ensures lore == Stored(old(lore), keys, doc, incoming)
    {
      ghost var before := lore;
      for i := 0 to |keys|
        invariant lore == Stored(before, keys[..i], doc, incoming)
      {
        StoredNext(before, keys, i, doc, incoming);
        lore := lore[keys[i] := Synced(doc, incoming[keys[i]])];
      }
      assert keys[..|keys|] == keys;
    }

    method MarkGone(keys: set<string>)
      requires keys <= lore.Keys
      modifies this
      ensures lore == Marked(old(lore), keys)
    {
      ghost var before := lore;
      var todo := keys;
      while todo != {}
        invariant todo <= keys <= lore.Keys
        invariant lore == Marked(before, keys - todo)
      {
        var key :| key in todo;
        todo := todo - {key};
        lore := lore[key := MarkedGone(lore[key])];
      }
    }

    method Confirm(keys: seq<string>) returns (done: seq<string>)
      modifies this
      ensures lore == Promoted(old(lore), keys)
      ensures done == Promotable(old(lore), keys)
    {
      done := [];
      ghost var before := lore;
      for i := 0 to |keys|
        invariant lore == Promoted(before, keys[..i])
        invariant done == Promotable(before, keys[..i])
      {
        assert keys[..i + 1][..i] == keys[..i] && keys[..i + 1] == keys[..i] + [keys[i]];
        var key := keys[i];
        if key !in lore || lore[key].state == Confirmed {
          continue;
        }
        lore := lore[key := lore[key].(state := Confirmed)];
        done := done + [key];
      }
      assert keys[..|keys|] == keys;
    }
  }

  // ---- what a sync changes ----

  /** The key is absent from both, or stands for the same lore in both. */
  predicate Same(a: LoreMap, b: LoreMap, k: string) { if k in a then k in b && a[k] == b[k] else k !in b }

  lemma {:induction false} OnlyThose(keys: seq<string>, p: string -> bool)
    ensures forall k :: k in Only(keys, p) <==> k in keys && p(k)
  {
    if keys != [] {
      var n := |keys| - 1;
      OnlyThose(keys[..n], p);
      assert keys == keys[..n] + [keys[n]];
    }
  }

  lemma {:induction false} KeysAreIncoming(source: string, items: seq<Json>)
    ensures forall k :: k in KeysIn(source, items) <==> k in Incoming(source, items)
    ensures |KeysIn(source, items)| == |Incoming(source, items)|
  {
    if items != [] { KeysAreIncoming(source, items[..|items| - 1]); }
  }

  lemma PlanMembers(lore: LoreMap, doc: Doc)
    ensures var p, incoming := PlanOf(lore, doc), IncomingOf(doc);
            forall k :: (k in p.added <==> IsNew(lore, incoming, k))
                        && (k in p.changed <==> IsChanged(lore, incoming, k))
                        && (k in p.gone <==> IsGone(lore, incoming, doc.Source(), k))
  {
    var incoming, keys := IncomingOf(doc), KeysOf(doc);
    KeysAreIncoming(doc.Source(), doc.items);
    OnlyThose(keys, NewIn(lore, incoming));
    OnlyThose(keys, ChangedIn(lore, incoming));
  }

  /** Storing items under the keys, and marking the keys gone. */
  function Stored(lore: LoreMap, keys: seq<string>, doc: Doc, incoming: map<string, Item>): LoreMap
    requires forall k :: k in keys ==> k in incoming
  {
    lore + map k | k in keys :: Synced(doc, incoming[k])
  }

  function Marked(lore: LoreMap, keys: set<string>): LoreMap {
    map k | k in lore :: if k in keys then MarkedGone(lore[k]) else lore[k]
  }

  lemma StoredNext(lore: LoreMap, keys: seq<string>, i: nat, doc: Doc, incoming: map<string, Item>)
    requires i < |keys| && forall k :: k in keys ==> k in incoming
    ensures Stored(lore, keys[..i + 1], doc, incoming) ==
            Stored(lore, keys[..i], doc, incoming)[keys[i] := Synced(doc, incoming[keys[i]])]
  {
    assert keys[..i + 1] == keys[..i] + [keys[i]];
  }

  /** Storing the new and changed items and then marking the gone ones is the whole sync. */
  lemma AppliedInSteps(lore: LoreMap, doc: Doc)
    ensures var p, incoming := PlanOf(lore, doc), IncomingOf(doc);
            && (forall k :: k in p.added + p.changed ==> k in incoming)
            && p.gone <= Stored(lore, p.added + p.changed, doc, incoming).Keys
            && Applied(lore, doc) == Marked(Stored(lore, p.added + p.changed, doc, incoming), p.gone)
  {
    var p, incoming := PlanOf(lore, doc), IncomingOf(doc);
    PlanMembers(lore, doc);
    var keys := p.added + p.changed;
    var result := Marked(Stored(lore, keys, doc, incoming), p.gone);
    forall k ensures Same(Applied(lore, doc), result, k) {
    }
    SameEverywhere(Applied(lore, doc), result);
  }

  /** Properties of which every key has exactly one. */
  ghost predicate OneEach(keys: seq<string>, p: string -> bool, q: string -> bool, r: string -> bool,
                          s: string -> bool)
  {
    forall k :: k in keys ==>
      (if p(k) then 1 else 0) + (if q(k) then 1 else 0) + (if r(k) then 1 else 0) + (if s(k) then 1 else 0) == 1
  }

  lemma {:induction false} GroupsAddUp(keys: seq<string>, p: string -> bool, q: string -> bool, r: string -> bool,
                                       s: string -> bool)
    requires OneEach(keys, p, q, r, s)
    ensures |Only(keys, p)| + |Only(keys, q)| + |Only(keys, r)| + |Only(keys, s)| == |keys|
  {
    if keys != [] {
      var n := |keys| - 1;
      assert keys[n] in keys && forall k :: k in keys[..n] ==> k in keys;
      GroupsAddUp(keys[..n], p, q, r, s);
      assert keys[..n + 1] == keys;
      OnlyNext(keys, n, p);
      OnlyNext(keys, n, q);
      OnlyNext(keys, n, r);
      OnlyNext(keys, n, s);
    }
  }

  /** The report counts every incoming key once: new, changed, unchanged or kept. */
  lemma CountsAddUp(lore: LoreMap, doc: Doc)
    ensures var c := PlanOf(lore, doc).counts;
            c.added + c.changed + c.same + c.kept == |IncomingOf(doc)|
  {
    var incoming, keys := IncomingOf(doc), KeysOf(doc);
    KeysAreIncoming(doc.Source(), doc.items);
    GroupsAddUp(keys, NewIn(lore, incoming), ChangedIn(lore, incoming),
                SameIn(lore, incoming), KeptIn(lore, incoming));
  }

  /** A sync changes exactly the lore its plan lists; it deletes nothing and leaves confirmed
      lore alone. */
  lemma ApplyChangesWhatIsPlanned(lore: LoreMap, doc: Doc, k: string)
    ensures Same(lore, Applied(lore, doc), k) <==>
            var p := PlanOf(lore, doc); k !in p.added && k !in p.changed && k !in p.gone
    ensures k in lore ==> k in Applied(lore, doc)
    ensures k in lore && lore[k].state == Confirmed ==> Applied(lore, doc)[k] == lore[k]
  {
    PlanMembers(lore, doc);
    if k in PlanOf(lore, doc).gone {
      assert Get(MarkedGone(lore[k]).value, "gone") == Bool(true);
    }
  }

  lemma {:induction false} IncomingPrefixed(source: string, items: seq<Json>)
    ensures forall k :: k in Incoming(source, items) ==> Prefix(source) <= k
  {
    if items != [] { IncomingPrefixed(source, items[..|items| - 1]); }
  }

  /** After a sync, the same document has nothing new, changed or gone, and syncing it again
      changes nothing. */
  lemma ApplyIdempotent(lore: LoreMap, doc: Doc)
    ensures var p := PlanOf(Applied(lore, doc), doc); p.added == [] && p.changed == [] && p.gone == {}
    ensures Applied(Applied(lore, doc), doc) == Applied(lore, doc)
  {
    var after, incoming := Applied(lore, doc), IncomingOf(doc);
    forall k
      ensures !IsNew(after, incoming, k) && !IsChanged(after, incoming, k) && !IsGone(after, incoming, doc.Source(), k)
    {
    }
    PlanMembers(after, doc);
    NothingIn(PlanOf(after, doc).added);
    NothingIn(PlanOf(after, doc).changed);
  }

  lemma SomeKey(keys: seq<string>)
    requires keys != []
    ensures exists k :: k in keys
  {
    assert keys[0] in keys;
  }

  lemma NothingIn(keys: seq<string>)
    requires forall k :: k !in keys
    ensures keys == []
  {
    if keys != [] { SomeKey(keys); }
  }

  // ---- two sources ----

  /** Neither source's keys can be the other's. */
  predicate Apart(s: string, t: string) { !(Prefix(s) <= Prefix(t)) && !(Prefix(t) <= Prefix(s)) }

  lemma ColonFreeApart(s: string, t: string)
    requires s != t && ':' !in s && ':' !in t
    ensures Apart(s, t)
  {
    if Prefix(s) <= Prefix(t) { PrefixOnce(s, t); }
    if Prefix(t) <= Prefix(s) { PrefixOnce(t, s); }
  }

  lemma PrefixOnce(s: string, t: string)
    requires ':' !in t && Prefix(s) <= Prefix(t)
    ensures s == t
  {
    assert forall i :: 0 <= i < |t| ==> Prefix(t)[i] in t;
    assert Prefix(t)[|s|] == Prefix(s)[|s|] == ':';
    assert s == Prefix(s)[..|s|] && t == Prefix(t)[..|t|] && Prefix(s)[..|s|] == Prefix(t)[..|s|];
  }

  lemma ShorterPrefix(p: string, q: string, k: string)
    requires p <= k && q <= k && |p| <= |q|
    ensures p <= q
  {
    assert q == k[..|q|] && p == k[..|q|][..|p|];
  }

  lemma ApartKeys(s: string, t: string, k: string)
    requires Apart(s, t) && Prefix(s) <= k
    ensures !(Prefix(t) <= k)
  {
    if Prefix(t) <= k {
      if |s| <= |t| { ShorterPrefix(Prefix(s), Prefix(t), k); } else { ShorterPrefix(Prefix(t), Prefix(s), k); }
    }
  }

  /** A sync touches only keys of its own source, and only what it finds there matters. */
  lemma ApplyIsLocal(lore: LoreMap, other: LoreMap, doc: Doc, k: string)
    ensures !(Prefix(doc.Source()) <= k) ==> Same(lore, Applied(lore, doc), k)
    ensures Same(lore, other, k) ==> Same(Applied(lore, doc), Applied(other, doc), k)
  {
    IncomingPrefixed(doc.Source(), doc.items);
  }

  lemma ApartCommute(lore: LoreMap, a: Doc, b: Doc)
    requires Apart(a.Source(), b.Source())
    ensures Applied(Applied(lore, a), b) == Applied(Applied(lore, b), a)
  {
    var ab, ba := Applied(Applied(lore, a), b), Applied(Applied(lore, b), a);
    forall k ensures Same(ab, ba, k) {
      if Prefix(a.Source()) <= k {
        ApartKeys(a.Source(), b.Source(), k);
        ApplyIsLocal(Applied(lore, a), lore, b, k);
        ApplyIsLocal(lore, lore, b, k);
        ApplyIsLocal(lore, Applied(lore, b), a, k);
      } else {
        ApplyIsLocal(lore, lore, a, k);
        ApplyIsLocal(Applied(lore, b), lore, a, k);
        ApplyIsLocal(lore, Applied(lore, a), b, k);
      }
    }
    SameEverywhere(ab, ba);
  }

  lemma SameEverywhere(a: LoreMap, b: LoreMap)
    requires forall k :: Same(a, b, k)
    ensures a == b
  {
    assert forall k :: k in a ==> Same(a, b, k);
    assert forall k :: k in b ==> Same(a, b, k);
  }

  /** An item that any source can carry. */
  const SAMPLE: Item := map["key" := Str("k"), "text" := Str("t")]

  lemma SampleIncoming(source: string)
    ensures Incoming(source, [Dict(SAMPLE)]) == map[Prefix(source) + "k" := SAMPLE]
    ensures Incoming(source, []) == map[]
  {
    assert Usable(Dict(SAMPLE)) by { assert Strip("t") == "t"; }
    assert [Dict(SAMPLE)][..0] == [];
  }

  lemma OverlapDoesNotCommute(s: string, t: string)
    requires s != "" && t != "" && Prefix(s) <= Prefix(t)
    ensures var a, b := Doc(s, "", [], Null), Doc(t, "", [Dict(SAMPLE)], Null);
            Applied(Applied(map[], a), b) != Applied(Applied(map[], b), a)
  {
    var a, b, k := Doc(s, "", [], Null), Doc(t, "", [Dict(SAMPLE)], Null), Prefix(t) + "k";
    SampleIncoming(s);
    SampleIncoming(t);
    var none: LoreMap := map[];
    assert k !in none;
    assert Applied(none, a) == none;
    var once := Applied(none, b);
    assert IsNew(none, IncomingOf(b), k) && once[k] == Synced(b, SAMPLE);
    assert Prefix(s) <= k;
    assert IsGone(once, IncomingOf(a), s, k);
    assert "gone" in Applied(once, a)[k].value;
  }

  /** Syncs from two sources commute, in every world and for all their documents, exactly
      when neither source name with its colon begins the other. */
  lemma CommuteIffApart(s: string, t: string)
    requires s != "" && t != ""
    ensures Apart(s, t) <==>
            forall lore: LoreMap, a: Doc, b: Doc :: a.Source() == s && b.Source() == t ==>
              Applied(Applied(lore, a), b) == Applied(Applied(lore, b), a)
  {
    if Apart(s, t) {
      forall lore: LoreMap, a: Doc, b: Doc | a.Source() == s && b.Source() == t
        ensures Applied(Applied(lore, a), b) == Applied(Applied(lore, b), a)
      {
        ApartCommute(lore, a, b);
      }
    } else if Prefix(s) <= Prefix(t) {
      OverlapDoesNotCommute(s, t);
    } else {
      OverlapDoesNotCommute(t, s);
    }
  }

  // ---- whole runs ----

  datatype Op = Sync(doc: Doc) | Confirmation(keys: seq<string>)

  function Run(lore: LoreMap, ops: seq<Op>): LoreMap {
    if ops == [] then lore
    else
      var before := Run(lore, ops[..|ops| - 1]);
      match ops[|ops| - 1]
      case Sync(doc) => Applied(before, doc)
      case Confirmation(keys) => Promoted(before, keys)
  }

  /** Once confirmed, lore stays word for word as it is through every sync and confirmation. */
  lemma {:induction false} ConfirmedForGood(lore: LoreMap, ops: seq<Op>, k: string)
    requires k in lore && lore[k].state == Confirmed
    ensures k in Run(lore, ops) && Run(lore, ops)[k] == lore[k]
  {
    if ops != [] {
      ConfirmedForGood(lore, ops[..|ops| - 1], k);
      match ops[|ops| - 1]
      case Sync(doc) =>
        ApplyChangesWhatIsPlanned(Run(lore, ops[..|ops| - 1]), doc, k);
      case Confirmation(keys) =>
    }
  }
}
