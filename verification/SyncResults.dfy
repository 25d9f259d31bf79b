/** What a sync of lore reports and does, in terms of the document's items. */
module SyncResults {
  import opened LoreSync
  import opened JsonValues
  import opened PyText

  // ---- the items of a document ----

  predicate HasText(item: map<string, Json>, key: string) { key in item && item[key].Str? && item[key].s != "" }

  /** The item is stored under the key: the source's name, a colon, and the item's own key. Items
      without a key or with blank text are passed over. */
  predicate Carries(doc: Doc, i: nat, key: string) {
    && i < |doc.items| && doc.items[i].Dict?
    && HasText(doc.items[i].entries, "key")
    && HasText(doc.items[i].entries, "text") && Strip(doc.items[i].entries["text"].s) != ""
    && key == (if doc.name != "" then doc.name else "lore") + ":" + doc.items[i].entries["key"].s
  }

  predicate LastOf(doc: Doc, i: nat, key: string) {
    Carries(doc, i, key) && forall j :: i < j < |doc.items| ==> !Carries(doc, j, key)
  }

  predicate FirstOf(doc: Doc, i: nat, key: string) {
    Carries(doc, i, key) && forall j :: 0 <= j < i ==> !Carries(doc, j, key)
  }

  predicate Carried(doc: Doc, key: string) { exists i :: 0 <= i < |doc.items| && Carries(doc, i, key) }

  function Upto(doc: Doc, n: nat): Doc
    requires n <= |doc.items|
  {
    doc.(items := doc.items[..n])
  }

  lemma CarriesUpto(doc: Doc, n: nat, i: nat, key: string)
    requires i < n <= |doc.items|
    ensures Carries(Upto(doc, n), i, key) <==> Carries(doc, i, key)
  {
  }

  lemma UsableCarries(doc: Doc, i: nat, key: string)
    requires i < |doc.items|
    ensures Carries(doc, i, key) <==>
            Usable(doc.items[i]) && key == Prefix(doc.Source()) + Get(doc.items[i].entries, "key").s
  {
    assert Strip("") == "";
  }

  lemma {:induction false} IncomingIs(doc: Doc, key: string)
    ensures key in IncomingOf(doc) <==> Carried(doc, key)
    decreases |doc.items|
  {
    if doc.items != [] {
      var n := |doc.items| - 1;
      IncomingIs(Upto(doc, n), key);
      UsableCarries(doc, n, key);
      CarriedMore(doc, key);
    }
  }

  /** Of the items under one key, the last counts. */
  lemma {:induction false} LastCounts(doc: Doc, i: nat, key: string)
    requires LastOf(doc, i, key)
    ensures key in IncomingOf(doc) && IncomingOf(doc)[key] == doc.items[i].entries
    decreases |doc.items|
  {
    var n := |doc.items| - 1;
    UsableCarries(doc, n, key);
    if i < n {
      assert !Carries(doc, n, key);
      LastBefore(doc, i, key);
      LastCounts(Upto(doc, n), i, key);
    }
  }

  lemma CarriedMore(doc: Doc, key: string)
    requires doc.items != []
    ensures var n := |doc.items| - 1; Carried(doc, key) <==> Carried(Upto(doc, n), key) || Carries(doc, n, key)
  {
    var n := |doc.items| - 1;
    forall i: nat | i < n ensures Carries(Upto(doc, n), i, key) <==> Carries(doc, i, key) {
      CarriesUpto(doc, n, i, key);
    }
  }

  lemma AllUpto(doc: Doc, n: nat, key: string)
    requires n <= |doc.items|
    ensures forall j :: 0 <= j < n ==> (Carries(Upto(doc, n), j, key) <==> Carries(doc, j, key))
  {
    forall j | 0 <= j < n ensures Carries(Upto(doc, n), j, key) <==> Carries(doc, j, key) {
      CarriesUpto(doc, n, j, key);
    }
  }

  lemma LastBefore(doc: Doc, i: nat, key: string)
    requires doc.items != [] && LastOf(doc, i, key) && i < |doc.items| - 1
    ensures LastOf(Upto(doc, |doc.items| - 1), i, key)
  {
    AllUpto(doc, |doc.items| - 1, key);
  }

  lemma LastBehind(doc: Doc, i: nat, key: string)
    requires doc.items != [] && LastOf(Upto(doc, |doc.items| - 1), i, key) && !Carries(doc, |doc.items| - 1, key)
    ensures LastOf(doc, i, key)
  {
    AllUpto(doc, |doc.items| - 1, key);
  }

  lemma {:induction false} LastCarrier(doc: Doc, key: string) returns (i: nat)
    requires Carried(doc, key)
    ensures LastOf(doc, i, key)
    decreases |doc.items|
  {
    var n := |doc.items| - 1;
    if Carries(doc, n, key) {
      i := n;
    } else {
      CarriedMore(doc, key);
      i := LastCarrier(Upto(doc, n), key);
      LastBehind(doc, i, key);
    }
  }

  // ---- what is stored ----

  /** The item's words: these six fields, as far as it has them. */
  ghost predicate HasWords(item: map<string, Json>, value: map<string, Json>) {
    forall field, v :: Is(value, field, v) <==>
      field in {"text", "title", "section", "status", "kind", "file"} && Is(item, field, v) && v != Null
  }

  predicate Is(value: map<string, Json>, field: string, v: Json) { field in value && value[field] == v }

  lemma SixFields(field: string)
    ensures field in VALUE_FIELDS <==> field in {"text", "title", "section", "status", "kind", "file"}
  {
    assert VALUE_FIELDS == ["text", "title", "section"] + ["status", "kind", "file"];
  }

  lemma WordsIff(item: map<string, Json>, value: map<string, Json>)
    ensures HasWords(item, value) <==> value == LoreSync.Value(item)
  {
    forall field ensures field in VALUE_FIELDS <==> field in {"text", "title", "section", "status", "kind", "file"} {
      SixFields(field);
    }
    var words := LoreSync.Value(item);
    if HasWords(item, value) {
      forall field ensures field in value <==> field in words {
        if field in value { assert Is(value, field, value[field]); }
        if field in words { assert Is(item, field, words[field]); }
      }
      forall field | field in value ensures value[field] == words[field] {
        assert Is(value, field, value[field]);
      }
    }
  }

  /** Lore as a sync stores it: the item's words, suggested, with where they come from. */
  ghost predicate IsSynced(doc: Doc, item: map<string, Json>, l: Lore) {
    && HasWords(item, l.value) && l.state == Suggested
    && l.origin.source == (if doc.name != "" then doc.name else "lore")
    && l.origin.revision == (if doc.revision != "" then doc.revision else "unknown")
    && l.origin.file == if "file" in item then item["file"] else Str("")
  }

  lemma SyncedIs(doc: Doc, item: map<string, Json>)
    ensures IsSynced(doc, item, Synced(doc, item))
  {
    WordsIff(item, LoreSync.Value(item));
  }

  /** An item of the document: new lore is stored, changed words are written over, and confirmed
      lore, or lore with the same words, is left as it is. */
  lemma CarriedLore(lore: LoreMap, doc: Doc, key: string, i: nat)
    requires LastOf(doc, i, key)
    ensures var after, item := Applied(lore, doc), doc.items[i].entries;
            && key in after
            && if key in lore && (lore[key].state == Confirmed || HasWords(item, lore[key].value))
               then after[key] == lore[key]
               else IsSynced(doc, item, after[key])
  {
    LastCounts(doc, i, key);
    SyncedIs(doc, doc.items[i].entries);
    if key in lore { WordsIff(doc.items[i].entries, lore[key].value); }
  }

  /** The lore is of this source, and neither confirmed nor marked as gone. */
  predicate CanGo(lore: LoreMap, doc: Doc, key: string) {
    && key in lore && lore[key].state != Confirmed && !("gone" in lore[key].value && Truthy(lore[key].value["gone"]))
    && (if doc.name != "" then doc.name else "lore") + ":" <= key
  }

  /** The same lore, with a mark that it is gone. */
  predicate MarkedAsGone(was: Lore, l: Lore) {
    && l.state == was.state && l.origin == was.origin
    && l.value.Keys == was.value.Keys + {"gone"} && l.value["gone"] == Bool(true)
    && forall field :: field in was.value && field != "gone" ==> l.value[field] == was.value[field]
  }

  /** A key that the document does not carry: nothing is made of it, and lore of this source is
      marked as gone. */
  lemma UncarriedLore(lore: LoreMap, doc: Doc, key: string)
    requires !Carried(doc, key)
    ensures var after := Applied(lore, doc);
            && (key in after <==> key in lore)
            && (key in lore ==>
                  if CanGo(lore, doc, key) then MarkedAsGone(lore[key], after[key]) else after[key] == lore[key])
  {
    IncomingIs(doc, key);
  }

  // ---- the report ----

  type First = (nat, string) -> bool

  function FirstIn(doc: Doc): First { (i: nat, key: string) => FirstOf(doc, i, key) }

  /** The keys stand in the order of the places where they are first, each once. */
  predicate Follows(first: First, keys: seq<string>, at: seq<nat>) {
    && |at| == |keys|
    && (forall m :: 0 <= m < |at| ==> first(at[m], keys[m]))
    && (forall m, n :: 0 <= m < n < |at| ==> at[m] < at[n])
  }

  lemma FirstBefore(doc: Doc, n: nat, i: nat, key: string)
    requires n <= |doc.items| && FirstOf(Upto(doc, n), i, key)
    ensures FirstOf(doc, i, key)
  {
    AllUpto(doc, n, key);
  }

  lemma {:induction false} KeysFollow(doc: Doc) returns (at: seq<nat>)
    ensures Follows(FirstIn(doc), KeysOf(doc), at) && forall m :: 0 <= m < |at| ==> at[m] < |doc.items|
    decreases |doc.items|
  {
    at := [];
    if doc.items != [] {
      var n := |doc.items| - 1;
      at := KeysFollow(Upto(doc, n));
      StillFollow(doc, KeysOf(Upto(doc, n)), at);
      if Usable(doc.items[n]) && Prefix(doc.Source()) + Get(doc.items[n].entries, "key").s !in KeysOf(Upto(doc, n)) {
        NewKeyFirst(doc, Prefix(doc.Source()) + Get(doc.items[n].entries, "key").s);
        at := at + [n];
      }
    }
  }

  lemma StillFollow(doc: Doc, keys: seq<string>, at: seq<nat>)
    requires doc.items != [] && Follows(FirstIn(Upto(doc, |doc.items| - 1)), keys, at)
    ensures Follows(FirstIn(doc), keys, at)
  {
    forall m | 0 <= m < |at| ensures FirstIn(doc)(at[m], keys[m]) {
      assert FirstIn(Upto(doc, |doc.items| - 1))(at[m], keys[m]);
      FirstBefore(doc, |doc.items| - 1, at[m], keys[m]);
    }
  }

  lemma NewKeyFirst(doc: Doc, key: string)
    requires doc.items != [] && key !in KeysOf(Upto(doc, |doc.items| - 1))
    requires var last := doc.items[|doc.items| - 1];
             Usable(last) && key == Prefix(doc.Source()) + Get(last.entries, "key").s
    ensures FirstOf(doc, |doc.items| - 1, key)
  {
    var n := |doc.items| - 1;
    UsableCarries(doc, n, key);
    KeysAreIncoming(doc.Source(), doc.items[..n]);
    IncomingIs(Upto(doc, n), key);
    AllUpto(doc, n, key);
  }

  /** Picking some of the keys leaves them in order. */
  lemma {:induction false} PickedFollow(first: First, keys: seq<string>, at: seq<nat>, p: string -> bool)
    returns (picked: seq<nat>)
    requires Follows(first, keys, at)
    ensures Follows(first, Only(keys, p), picked)
    ensures forall i :: i in picked ==> i in at
  {
    picked := [];
    if keys != [] {
      var n := |keys| - 1;
      picked := PickedFollow(first, keys[..n], at[..n], p);
      if p(keys[n]) {
        forall m | 0 <= m < |picked| ensures picked[m] < at[n] {
          assert picked[m] in at[..n];
        }
        picked := picked + [at[n]];
      }
    }
  }

  predicate Distinct(keys: seq<string>) { forall m, n :: 0 <= m < n < |keys| ==> keys[m] != keys[n] }

  lemma {:induction false} PickedCount(keys: seq<string>, p: string -> bool, them: set<string>)
    requires Distinct(keys) && forall k :: k in them <==> k in keys && p(k)
    ensures |Only(keys, p)| == |them|
  {
    if keys == [] {
      assert them == {};
    } else {
      var n := |keys| - 1;
      assert keys == keys[..n] + [keys[n]];
      assert keys[n] !in keys[..n];
      PickedCount(keys[..n], p, them - {keys[n]});
      assert keys[n] !in them ==> them - {keys[n]} == them;
    }
  }

  lemma FollowsOnce(first: First, keys: seq<string>, at: seq<nat>)
    requires Follows(first, keys, at)
    requires forall i: nat, j: nat, key :: first(i, key) && first(j, key) ==> i == j
    ensures Distinct(keys)
  {
    forall m, n | 0 <= m < n < |keys| ensures keys[m] != keys[n] {
      assert first(at[m], keys[m]) && first(at[n], keys[n]) && at[m] < at[n];
    }
  }

  /** The document has the key, and its last item under it is one the source accepted. */
  ghost predicate Accepted(doc: Doc, key: string) {
    exists i: nat :: LastOf(doc, i, key) && Is(doc.items[i].entries, "status", Str("accepted"))
  }

  ghost predicate Unchanged(lore: LoreMap, doc: Doc, key: string) {
    && key in lore && lore[key].state != Confirmed
    && exists i: nat :: LastOf(doc, i, key) && HasWords(doc.items[i].entries, lore[key].value)
  }

  ghost predicate Reworded(lore: LoreMap, doc: Doc, key: string) {
    && key in lore && lore[key].state != Confirmed
    && exists i: nat :: LastOf(doc, i, key) && !HasWords(doc.items[i].entries, lore[key].value)
  }

  predicate Kept(lore: LoreMap, doc: Doc, key: string) {
    key in lore && lore[key].state == Confirmed && Carried(doc, key)
  }

  lemma GroupsMean(lore: LoreMap, doc: Doc, key: string)
    ensures var incoming := IncomingOf(doc);
            && (IsNew(lore, incoming, key) <==> Carried(doc, key) && key !in lore)
            && (IsChanged(lore, incoming, key) <==> Reworded(lore, doc, key))
            && (IsSame(lore, incoming, key) <==> Unchanged(lore, doc, key))
            && (IsKept(lore, incoming, key) <==> Kept(lore, doc, key))
            && (IsAccepted(incoming, key) <==> Accepted(doc, key))
            && (IsGone(lore, incoming, doc.Source(), key) <==> CanGo(lore, doc, key) && !Carried(doc, key))
  {
    IncomingIs(doc, key);
    if Carried(doc, key) {
      var i := LastCarrier(doc, key);
      LastCounts(doc, i, key);
      if key in lore { WordsIff(doc.items[i].entries, lore[key].value); }
    }
  }

  /** The report: which keys are new, reworded and gone, in the document's order, and how many keys
      there are of each kind. */
  lemma PlanMeans(lore: LoreMap, doc: Doc) returns (at: seq<nat>, also: seq<nat>)
    ensures var p := PlanOf(lore, doc);
            && p.source == (if doc.name != "" then doc.name else "lore")
            && p.revision == doc.revision
            && p.skipped == (if Truthy(doc.skipped) then doc.skipped else Dict(map[]))
            && Follows(FirstIn(doc), p.added, at) && Follows(FirstIn(doc), p.changed, also)
            && (forall key :: key in p.added <==> Carried(doc, key) && key !in lore)
            && (forall key :: key in p.changed <==> Reworded(lore, doc, key))
            && (forall key :: key in p.gone <==> CanGo(lore, doc, key) && !Carried(doc, key))
  {
    var incoming := IncomingOf(doc);
    var all := KeysFollow(doc);
    at := PickedFollow(FirstIn(doc), KeysOf(doc), all, NewIn(lore, incoming));
    also := PickedFollow(FirstIn(doc), KeysOf(doc), all, ChangedIn(lore, incoming));
    PlanMembers(lore, doc);
    forall key {
      GroupsMean(lore, doc, key);
    }
  }

  lemma PickedOnce(doc: Doc, p: string -> bool)
    ensures Distinct(KeysOf(doc)) && Distinct(Only(KeysOf(doc), p))
  {
    OneFirst(doc);
    var at := KeysFollow(doc);
    FollowsOnce(FirstIn(doc), KeysOf(doc), at);
    var picked := PickedFollow(FirstIn(doc), KeysOf(doc), at, p);
    FollowsOnce(FirstIn(doc), Only(KeysOf(doc), p), picked);
  }

  lemma OneFirst(doc: Doc)
    ensures forall i: nat, j: nat, key :: FirstIn(doc)(i, key) && FirstIn(doc)(j, key) ==> i == j
  {
  }

  lemma CountOf(doc: Doc, p: string -> bool, them: set<string>)
    requires forall k :: k in them <==> k in IncomingOf(doc) && p(k)
    ensures |Only(KeysOf(doc), p)| == |them|
  {
    PickedOnce(doc, p);
    KeysAreIncoming(doc.Source(), doc.items);
    PickedCount(KeysOf(doc), p, them);
  }

  lemma JoinedOnce(a: seq<string>, b: seq<string>)
    requires Distinct(a) && Distinct(b) && forall k :: !(k in a && k in b)
    ensures Distinct(a + b)
  {
    forall m, n | 0 <= m < n < |a + b| ensures (a + b)[m] != (a + b)[n] {
      if m < |a| <= n { assert a[m] in a && b[n - |a|] in b; }
    }
  }

  function Proposed(lore: LoreMap, doc: Doc): seq<string> {
    var incoming, keys := IncomingOf(doc), KeysOf(doc);
    Only(keys, NewIn(lore, incoming)) + Only(keys, ChangedIn(lore, incoming)) + Only(keys, SameIn(lore, incoming))
  }

  lemma ProposedOnce(lore: LoreMap, doc: Doc)
    ensures Distinct(Proposed(lore, doc))
    ensures forall k :: k in Proposed(lore, doc) <==> k in IncomingOf(doc) && !IsKept(lore, IncomingOf(doc), k)
  {
    var incoming, keys := IncomingOf(doc), KeysOf(doc);
    PickedOnce(doc, NewIn(lore, incoming));
    PickedOnce(doc, ChangedIn(lore, incoming));
    PickedOnce(doc, SameIn(lore, incoming));
    OnlyThose(keys, NewIn(lore, incoming));
    OnlyThose(keys, ChangedIn(lore, incoming));
    OnlyThose(keys, SameIn(lore, incoming));
    KeysAreIncoming(doc.Source(), doc.items);
    JoinedOnce(Only(keys, NewIn(lore, incoming)), Only(keys, ChangedIn(lore, incoming)));
    JoinedOnce(Only(keys, NewIn(lore, incoming)) + Only(keys, ChangedIn(lore, incoming)),
               Only(keys, SameIn(lore, incoming)));
  }

  ghost function NewKeys(lore: LoreMap, doc: Doc): set<string> {
    set k | k in IncomingOf(doc).Keys && k !in lore
  }

  ghost function RewordedKeys(lore: LoreMap, doc: Doc): set<string> {
    set k | k in IncomingOf(doc).Keys && Reworded(lore, doc, k)
  }

  ghost function UnchangedKeys(lore: LoreMap, doc: Doc): set<string> {
    set k | k in IncomingOf(doc).Keys && Unchanged(lore, doc, k)
  }

  ghost function KeptKeys(lore: LoreMap, doc: Doc): set<string> {
    set k | k in IncomingOf(doc).Keys && Kept(lore, doc, k)
  }

  ghost function GoneKeys(lore: LoreMap, doc: Doc): set<string> {
    set k | k in lore && CanGo(lore, doc, k) && !Carried(doc, k)
  }

  ghost function WaitingKeys(lore: LoreMap, doc: Doc): set<string> {
    set k | k in IncomingOf(doc).Keys && !Kept(lore, doc, k) && Accepted(doc, k)
  }

  lemma NewCount(lore: LoreMap, doc: Doc)
    ensures |Only(KeysOf(doc), NewIn(lore, IncomingOf(doc)))| == |NewKeys(lore, doc)|
  {
    forall key ensures key in NewKeys(lore, doc) <==> key in IncomingOf(doc) && NewIn(lore, IncomingOf(doc))(key) {
      GroupsMean(lore, doc, key);
    }
    CountOf(doc, NewIn(lore, IncomingOf(doc)), NewKeys(lore, doc));
  }

  lemma RewordedCount(lore: LoreMap, doc: Doc)
    ensures |Only(KeysOf(doc), ChangedIn(lore, IncomingOf(doc)))| == |RewordedKeys(lore, doc)|
  {
    forall key
      ensures key in RewordedKeys(lore, doc) <==> key in IncomingOf(doc) && ChangedIn(lore, IncomingOf(doc))(key)
    {
      GroupsMean(lore, doc, key);
    }
    CountOf(doc, ChangedIn(lore, IncomingOf(doc)), RewordedKeys(lore, doc));
  }

  lemma UnchangedCount(lore: LoreMap, doc: Doc)
    ensures |Only(KeysOf(doc), SameIn(lore, IncomingOf(doc)))| == |UnchangedKeys(lore, doc)|
  {
    forall key
      ensures key in UnchangedKeys(lore, doc) <==> key in IncomingOf(doc) && SameIn(lore, IncomingOf(doc))(key)
    {
      GroupsMean(lore, doc, key);
    }
    CountOf(doc, SameIn(lore, IncomingOf(doc)), UnchangedKeys(lore, doc));
  }

  lemma KeptCount(lore: LoreMap, doc: Doc)
    ensures |Only(KeysOf(doc), KeptIn(lore, IncomingOf(doc)))| == |KeptKeys(lore, doc)|
  {
    forall key ensures key in KeptKeys(lore, doc) <==> key in IncomingOf(doc) && KeptIn(lore, IncomingOf(doc))(key) {
      GroupsMean(lore, doc, key);
    }
    CountOf(doc, KeptIn(lore, IncomingOf(doc)), KeptKeys(lore, doc));
  }

  lemma GoneAre(lore: LoreMap, doc: Doc)
    ensures Gone(lore, IncomingOf(doc), doc.Source()) == GoneKeys(lore, doc)
  {
    forall key {
      GroupsMean(lore, doc, key);
    }
  }

  lemma WaitingCount(lore: LoreMap, doc: Doc)
    ensures |Only(Proposed(lore, doc), AcceptedIn(IncomingOf(doc)))| == |WaitingKeys(lore, doc)|
  {
    ProposedOnce(lore, doc);
    forall key ensures key in WaitingKeys(lore, doc) <==>
                       key in Proposed(lore, doc) && AcceptedIn(IncomingOf(doc))(key)
    {
      GroupsMean(lore, doc, key);
    }
    PickedCount(Proposed(lore, doc), AcceptedIn(IncomingOf(doc)), WaitingKeys(lore, doc));
  }

  /** The counts are those of the keys of each kind; of the new, reworded and unchanged ones it is
      also said how many the source accepted. */
  lemma CountsMean(lore: LoreMap, doc: Doc)
    ensures var c := PlanOf(lore, doc).counts;
            && c.added == |NewKeys(lore, doc)| && c.changed == |RewordedKeys(lore, doc)|
            && c.same == |UnchangedKeys(lore, doc)| && c.kept == |KeptKeys(lore, doc)|
            && c.gone == |GoneKeys(lore, doc)| && c.acceptedWaiting == |WaitingKeys(lore, doc)|
  {
    NewCount(lore, doc);
    RewordedCount(lore, doc);
    UnchangedCount(lore, doc);
    KeptCount(lore, doc);
    GoneAre(lore, doc);
    WaitingCount(lore, doc);
  }

  // ---- confirming ----

  /** Confirming makes the named lore confirmed and changes nothing else; each key it promotes is
      reported once, in the order they were first named. */
  lemma {:induction false} ConfirmMeans(lore: LoreMap, keys: seq<string>) returns (at: seq<nat>)
    ensures var after := Promoted(lore, keys);
            && after.Keys == lore.Keys
            && forall key :: key in lore ==>
                 && after[key].value == lore[key].value && after[key].origin == lore[key].origin
                 && after[key].state == if key in keys then Confirmed else lore[key].state
    ensures var done := Promotable(lore, keys);
            && |at| == |done|
            && (forall m :: 0 <= m < |at| ==> at[m] < |keys| && keys[at[m]] == done[m] && done[m] !in keys[..at[m]])
            && (forall m, n :: 0 <= m < n < |at| ==> at[m] < at[n])
            && (forall key :: key in done <==> key in keys && key in lore && lore[key].state != Confirmed)
  {
    at := [];
    if keys != [] {
      var n := |keys| - 1;
      at := ConfirmMeans(lore, keys[..n]);
      assert forall m :: 0 <= m < |at| ==> keys[..n][..at[m]] == keys[..at[m]];
      assert keys == keys[..n] + [keys[n]];
      if keys[n] in lore && lore[keys[n]].state != Confirmed && keys[n] !in keys[..n] {
        at := at + [n];
      }
    }
  }
}
