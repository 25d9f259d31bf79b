/** What each request to the crew does, field by field (the handlers in `api.py`, and `crew.py`). */
module CrewRequests {
  import opened Crew
  import opened CrewIds
  import opened JsonValues
  import opened PyText

  type Body = map<string, Json>

  // ---- the fields of a body ----

  /** Nothing, null, or blank text. */
  predicate GivesNone(body: Body, key: string) {
    key in body ==> body[key] == Null || (body[key].Str? && Strip(body[key].s) == "")
  }

  /** `text` is what the field says, without white space around it; none when it says nothing. */
  predicate Says(body: Body, key: string, cap: nat, text: Option<string>) {
    match text
    case None => GivesNone(body, key)
    case Some(t) => key in body && body[key].Str? && Strip(body[key].s) == t && 1 <= |t| <= cap
  }

  lemma FieldMeans(body: Body, key: string, cap: nat, required: bool, text: Option<string>)
    ensures ReadField(body, key, cap, required) == Good(text) <==>
            Says(body, key, cap, text) && (required ==> text.Some?)
  {
    assert Strip("") == "";
  }

  // ---- finding a companion ----

  /** The companion with this id is at `i`. */
  predicate StandsAt(crew: seq<Entry>, id: string, i: nat) {
    && IsSafeId(id) && i < |crew| && crew[i].id == id
    && forall j :: 0 <= j < i ==> crew[j].id != id
  }

  lemma {:induction false} FoundStands(crew: seq<Entry>, id: string)
    requires FindAt(crew, id).Some?
    ensures StandsAt(crew, id, FindAt(crew, id).value)
  {
    var front := crew[..|crew| - 1];
    if FindAt(front, id).Some? {
      FoundStands(front, id);
    } else {
      forall j | 0 <= j < |front| ensures crew[j].id != id {
        assert front[j].id in Ids(front);
      }
    }
  }

  lemma FoundIff(crew: seq<Entry>, id: string, i: nat)
    ensures FindAt(crew, id) == Some(i) <==> StandsAt(crew, id, i)
  {
    assert i < |crew| ==> crew[i].id in Ids(crew);
    if FindAt(crew, id).Some? { FoundStands(crew, id); }
  }

  lemma NotFound(crew: seq<Entry>, id: string)
    ensures FindAt(crew, id) == None <==> forall i: nat :: !StandsAt(crew, id, i)
  {
    forall i: nat ensures FindAt(crew, id) == Some(i) <==> StandsAt(crew, id, i) {
      FoundIff(crew, id, i);
    }
  }

  // ---- adding ----

  /** The body names a companion, and every field it gives is in shape. */
  ghost predicate Describes(body: Body, name: string, blurb: Option<string>, voice: Option<string>) {
    && Says(body, "name", 60, Some(name)) && Says(body, "blurb", 280, blurb)
    && Says(body, "voice_label", 60, voice)
  }

  lemma DescribesIff(body: Body, name: string, blurb: Option<string>, voice: Option<string>)
    ensures Describes(body, name, blurb, voice) <==>
            && ReadField(body, "name", NAME_MAX, true) == Good(Some(name))
            && ReadField(body, "blurb", BLURB_MAX, false) == Good(blurb)
            && ReadField(body, "voice_label", VOICE_LABEL_MAX, false) == Good(voice)
  {
    FieldMeans(body, "name", NAME_MAX, true, Some(name));
    FieldMeans(body, "blurb", BLURB_MAX, false, blurb);
    FieldMeans(body, "voice_label", VOICE_LABEL_MAX, false, voice);
  }

  /** A companion of one's own, as described, under a fresh id made of its name. */
  ghost predicate IsNew(setting: Setting, taken: set<string>, body: Body, e: Entry) {
    && Describes(body, e.name, e.blurb, e.voiceLabel)
    && e.portrait == None && e.fullBody == None && !e.starter && !e.hidden
    && FreshId(taken, Slugify(setting.lower, e.name), e.id)
  }

  lemma NewMeans(setting: Setting, taken: set<string>, body: Body, name: string, blurb: Option<string>,
                 voice: Option<string>)
    requires Roomy(taken) && Describes(body, name, blurb, voice)
    ensures IsNew(setting, taken, body, NewEntry(IdFor(taken, Slugify(setting.lower, name)), name, blurb, voice))
  {
    StripTrims(body["name"].s);
    StripTrims(name);
    SlugifyIsSlug(setting.lower, name);
    IdMeans(taken, Slugify(setting.lower, name));
  }

  /** `after` is the state with one more companion at the end. */
  ghost predicate WithNew(setting: Setting, st: State, body: Body, after: State) {
    exists e :: IsNew(setting, Ids(st.crew), body, e) && after == State(st.crew + [e], st.keepers, st.doorways)
  }

  /** A companion is added if and only if the body describes one. It goes to the end of the roster,
      and nothing else changes. */
  lemma AddedIff(setting: Setting, rooms: set<string>, st: State, body: Body, stored: bool)
    requires Roomy(Ids(st.crew))
    ensures var after := Handled(setting, rooms, st, AddCompanion(body), stored);
            && (after.Some? <==> exists name, blurb, voice :: Describes(body, name, blurb, voice))
            && (after.Some? ==> WithNew(setting, st, body, after.value))
  {
    var after := Handled(setting, rooms, st, AddCompanion(body), stored);
    forall name, blurb, voice | Describes(body, name, blurb, voice)
      ensures after.Some? && WithNew(setting, st, body, after.value)
    {
      DescribesIff(body, name, blurb, voice);
      NewMeans(setting, Ids(st.crew), body, name, blurb, voice);
    }
    if after.Some? {
      FieldMeans(body, "name", NAME_MAX, true, None);
      DescribesIff(body, ReadField(body, "name", NAME_MAX, true).text.value,
                   ReadField(body, "blurb", BLURB_MAX, false).text,
                   ReadField(body, "voice_label", VOICE_LABEL_MAX, false).text);
    }
  }

  // ---- editing ----

  /** The entry as it was, but for what the body names. */
  ghost predicate IsEdited(was: Entry, body: Body, e: Entry) {
    && (if "name" in body then Says(body, "name", 60, Some(e.name)) else e.name == was.name)
    && (if "blurb" in body then Says(body, "blurb", 280, e.blurb) else e.blurb == was.blurb)
    && (if "voice_label" in body then Says(body, "voice_label", 60, e.voiceLabel) else e.voiceLabel == was.voiceLabel)
    && (if "hidden" in body then body["hidden"] == Bool(e.hidden) else e.hidden == was.hidden)
    && e.id == was.id && e.portrait == was.portrait && e.fullBody == was.fullBody && e.starter == was.starter
  }

  lemma EditMeans(was: Entry, body: Body, e: Entry)
    ensures Patched(was, body) == Some(e) <==> IsEdited(was, body, e)
  {
    FieldMeans(body, "name", NAME_MAX, true, Some(e.name));
    FieldMeans(body, "blurb", BLURB_MAX, false, e.blurb);
    FieldMeans(body, "voice_label", VOICE_LABEL_MAX, false, e.voiceLabel);
    FieldMeans(body, "name", NAME_MAX, true, None);
  }

  /** One companion is changed, and nothing else. */
  predicate WithEntry(st: State, i: nat, e: Entry, after: State) {
    && i < |st.crew| && after.keepers == st.keepers && after.doorways == st.doorways
    && after.crew == st.crew[..i] + [e] + st.crew[i + 1..]
  }

  lemma Replaced(st: State, i: nat, e: Entry, after: State)
    requires i < |st.crew|
    ensures WithEntry(st, i, e, after) <==> after == st.(crew := st.crew[i := e])
  {
    assert st.crew[i := e] == st.crew[..i] + [e] + st.crew[i + 1..];
  }

  /** A patch goes through exactly for a companion of the roster and a body whose fields are all in
      shape, and then changes what the body names of that companion. */
  lemma PatchIff(setting: Setting, rooms: set<string>, st: State, id: string, body: Body, stored: bool, after: State)
    ensures Handled(setting, rooms, st, Patch(id, body), stored) == Some(after) <==>
            exists i: nat, e :: StandsAt(st.crew, id, i) && IsEdited(st.crew[i], body, e) && WithEntry(st, i, e, after)
  {
    if i: nat, e :| StandsAt(st.crew, id, i) && IsEdited(st.crew[i], body, e) && WithEntry(st, i, e, after) {
      FoundIff(st.crew, id, i);
      EditMeans(st.crew[i], body, e);
      Replaced(st, i, e, after);
    }
    if Handled(setting, rooms, st, Patch(id, body), stored) == Some(after) {
      var i := FindAt(st.crew, id).value;
      var e := Patched(st.crew[i], body).value;
      FoundIff(st.crew, id, i);
      EditMeans(st.crew[i], body, e);
      Replaced(st, i, e, after);
    }
  }

  // ---- deleting ----

  /** The rooms the companion kept have no keeper now; the others keep theirs. */
  predicate Vacated(before: Choices, id: string, after: Choices) {
    && after.Keys == before.Keys
    && forall room :: room in before ==> after[room] == if before[room] == Some(id) then None else before[room]
  }

  predicate Without(st: State, id: string, i: nat, after: State) {
    && i < |st.crew| && after.crew == st.crew[..i] + st.crew[i + 1..] && after.doorways == st.doorways
    && Vacated(st.keepers, id, after.keepers)
  }

  lemma WithoutIs(st: State, id: string, i: nat, after: State)
    requires i < |st.crew|
    ensures Without(st, id, i, after) <==>
            after == st.(crew := st.crew[..i] + st.crew[i + 1..], keepers := Cleared(st.keepers, id))
  {
    VacatedIs(st.keepers, id, after.keepers);
  }

  lemma VacatedIs(before: Choices, id: string, after: Choices)
    ensures Vacated(before, id, after) <==> after == Cleared(before, id)
  {
  }

  lemma DeletedAt(setting: Setting, rooms: set<string>, st: State, id: string, stored: bool, i: nat)
    requires StandsAt(st.crew, id, i)
    ensures Handled(setting, rooms, st, Delete(id), stored) ==
            if st.crew[i].starter then None
            else Some(st.(crew := st.crew[..i] + st.crew[i + 1..], keepers := Cleared(st.keepers, id)))
  {
    FoundIff(st.crew, id, i);
  }

  lemma NotDeleted(setting: Setting, rooms: set<string>, st: State, id: string, stored: bool)
    requires forall i: nat :: !StandsAt(st.crew, id, i)
    ensures Handled(setting, rooms, st, Delete(id), stored) == None
  {
    NotFound(st.crew, id);
  }

  ghost predicate Leaves(st: State, id: string, i: nat, after: State) {
    StandsAt(st.crew, id, i) && !st.crew[i].starter && Without(st, id, i, after)
  }

  /** A companion is deleted exactly when the roster has it and it is no starter; it then leaves the
      roster and the rooms it kept. */
  lemma DeleteIff(setting: Setting, rooms: set<string>, st: State, id: string, stored: bool, after: State)
    ensures Handled(setting, rooms, st, Delete(id), stored) == Some(after) <==>
            exists i: nat :: Leaves(st, id, i, after)
  {
    if i: nat :| StandsAt(st.crew, id, i) {
      DeletedAt(setting, rooms, st, id, stored, i);
      WithoutIs(st, id, i, after);
      assert Leaves(st, id, i, after) <==> Handled(setting, rooms, st, Delete(id), stored) == Some(after);
      forall k: nat | Leaves(st, id, k, after) ensures k == i {
      }
    } else {
      NotDeleted(setting, rooms, st, id, stored);
    }
  }

  // ---- keepers and doorways ----

  /** One room has this choice now, and every other the one it had. */
  predicate Chosen(before: Choices, room: string, choice: Option<string>, after: Choices) {
    && after.Keys == before.Keys + {room} && after[room] == choice
    && forall other :: other in before && other != room ==> after[other] == before[other]
  }

  lemma ChosenIs(before: Choices, room: string, choice: Option<string>, after: Choices)
    ensures Chosen(before, room, choice, after) <==> after == before[room := choice]
  {
  }

  /** A keeper is chosen, or the room left without one, exactly for a configured room and a
      companion of the roster; no other room changes, nor the roster. */
  lemma KeeperIff(setting: Setting, rooms: set<string>, st: State, room: string, companion: Json, stored: bool,
                  after: State)
    ensures Handled(setting, rooms, st, SetKeeper(room, companion), stored) == Some(after) <==>
            && room in rooms && after.crew == st.crew && after.doorways == st.doorways
            && match companion
               case Null => Chosen(st.keepers, room, None, after.keepers)
               case Str(id) =>
                 (exists i: nat :: StandsAt(st.crew, id, i)) && Chosen(st.keepers, room, Some(id), after.keepers)
               case _ => false
  {
    if companion.Str? {
      NotFound(st.crew, companion.s);
      ChosenIs(st.keepers, room, Some(companion.s), after.keepers);
    } else {
      ChosenIs(st.keepers, room, None, after.keepers);
    }
  }

  /** And the room then shows that companion, by its name and portrait, and the others what they
      showed. */
  lemma KeeperShown(setting: Setting, rooms: set<string>, st: State, room: string, id: string, stored: bool, i: nat)
    requires room in rooms && StandsAt(st.crew, id, i)
    ensures var after := Handled(setting, rooms, st, SetKeeper(room, Str(id)), stored);
            && after.Some?
            && KeeperOf(after.value, room) == Some(Keeper(id, st.crew[i].name, st.crew[i].portrait))
            && forall other :: other != room ==> KeeperOf(after.value, other) == KeeperOf(st, other)
  {
    FoundIff(st.crew, id, i);
  }

  lemma NoKeeperShown(setting: Setting, rooms: set<string>, st: State, room: string, stored: bool)
    requires room in rooms
    ensures var after := Handled(setting, rooms, st, SetKeeper(room, Null), stored);
            && after.Some? && KeeperOf(after.value, room) == None
            && forall other :: other != room ==> KeeperOf(after.value, other) == KeeperOf(st, other)
  {
  }

  /** The closed list. */
  predicate DoorwayName(d: string) {
    d in {"study", "archive", "garden", "kitchen", "lounge", "music", "observatory",
          "post", "travel", "vault", "wellness", "hallway", "servers"}
  }

  lemma DoorwayNames(d: string)
    ensures IsDoorway(d) <==> DoorwayName(d)
  {
    assert DOORWAYS == ["study", "archive", "garden", "kitchen", "lounge", "music", "observatory"]
                       + ["post", "travel", "vault", "wellness", "hallway", "servers"];
  }

  lemma DoorwayIff(setting: Setting, rooms: set<string>, st: State, room: string, doorway: Json, stored: bool,
                   after: State)
    ensures Handled(setting, rooms, st, SetDoorway(room, doorway), stored) == Some(after) <==>
            && room in rooms && after.crew == st.crew && after.keepers == st.keepers
            && match doorway
               case Null => Chosen(st.doorways, room, None, after.doorways)
               case Str(d) => DoorwayName(d) && Chosen(st.doorways, room, Some(d), after.doorways)
               case _ => false
  {
    if doorway.Str? {
      DoorwayNames(doorway.s);
      ChosenIs(st.doorways, room, Some(doorway.s), after.doorways);
    } else {
      ChosenIs(st.doorways, room, None, after.doorways);
    }
  }

  // ---- portraits ----

  /** The entry as it was, but for its portrait. */
  predicate IsPortrayed(was: Entry, portrait: Option<string>, e: Entry) {
    && e.portrait == portrait && e.id == was.id && e.name == was.name && e.blurb == was.blurb
    && e.voiceLabel == was.voiceLabel && e.fullBody == was.fullBody
    && e.starter == was.starter && e.hidden == was.hidden
  }

  predicate Served(st: State, id: string, i: nat, e: Entry, after: State) {
    && StandsAt(st.crew, id, i) && WithEntry(st, i, e, after)
    && IsPortrayed(st.crew[i], Some("/api/crew/" + id + "/portrait"), e)
  }

  /** A portrait is stored for a companion of the roster only, and is then the one its own route serves. */
  lemma UploadIff(setting: Setting, rooms: set<string>, st: State, id: string, stored: bool, after: State)
    ensures Handled(setting, rooms, st, UploadPortrait(id), stored) == Some(after) <==>
            exists i: nat, e :: Served(st, id, i, e, after)
  {
    if i: nat, e :| Served(st, id, i, e, after) {
      FoundIff(st.crew, id, i);
      Replaced(st, i, e, after);
    }
    if Handled(setting, rooms, st, UploadPortrait(id), stored) == Some(after) {
      var i := FindAt(st.crew, id).value;
      FoundIff(st.crew, id, i);
      Replaced(st, i, after.crew[i], after);
      assert Served(st, id, i, after.crew[i], after);
    }
  }

  /** What a companion has without an upload: a starter the portrait it came with, any other none. */
  ghost predicate IsOriginal(starters: seq<Entry>, was: Entry, portrait: Option<string>) {
    && (!was.starter || (forall k :: 0 <= k < |starters| ==> starters[k].id != was.id) ==> portrait == None)
    && (was.starter ==>
          forall k :: 0 <= k < |starters| && starters[k].id == was.id && IsFirstId(starters, k) ==>
            portrait == starters[k].portrait)
  }

  predicate IsFirstId(starters: seq<Entry>, k: nat)
    requires k < |starters|
  {
    forall j :: 0 <= j < k ==> starters[j].id != starters[k].id
  }

  lemma {:induction false} StarterPortraitIs(starters: seq<Entry>, id: string)
    ensures (forall k :: 0 <= k < |starters| ==> starters[k].id != id) ==> StarterPortrait(starters, id) == None
    ensures forall k :: 0 <= k < |starters| && starters[k].id == id && IsFirstId(starters, k) ==>
              StarterPortrait(starters, id) == starters[k].portrait
  {
    if starters != [] && starters[0].id != id {
      StarterPortraitIs(starters[1..], id);
      forall k | 0 <= k < |starters| && starters[k].id == id && IsFirstId(starters, k)
        ensures StarterPortrait(starters, id) == starters[k].portrait
      {
        assert starters[1..][k - 1] == starters[k] && IsFirstId(starters[1..], k - 1);
      }
    }
  }

  ghost predicate Restored(starters: seq<Entry>, st: State, id: string, i: nat, e: Entry, after: State) {
    && StandsAt(st.crew, id, i) && WithEntry(st, i, e, after)
    && IsPortrayed(st.crew[i], e.portrait, e) && IsOriginal(starters, st.crew[i], e.portrait)
  }

  /** An uploaded portrait is dropped exactly when there is one, and what was there before it shows. */
  lemma DropIff(setting: Setting, rooms: set<string>, st: State, id: string, stored: bool)
    ensures var after := Handled(setting, rooms, st, DropPortrait(id), stored);
            && (after.Some? <==> stored && exists i: nat :: StandsAt(st.crew, id, i))
            && (after.Some? ==> exists i: nat, e :: Restored(setting.starters, st, id, i, e, after.value))
  {
    var after := Handled(setting, rooms, st, DropPortrait(id), stored);
    NotFound(st.crew, id);
    if after.Some? {
      var i := FindAt(st.crew, id).value;
      var e := after.value.crew[i];
      FoundIff(st.crew, id, i);
      StarterPortraitIs(setting.starters, e.id);
      Replaced(st, i, e, after.value);
      assert Restored(setting.starters, st, id, i, e, after.value);
    }
  }

  // ---- reading whatever is stored ----

  /** The text without the white space around it, cut behind `cap` characters. */
  predicate Shows(text: string, cap: nat, shown: string) {
    shown <= Strip(text) && |shown| <= cap && (|shown| < cap ==> shown == Strip(text))
  }

  predicate HasText(entries: Body, key: string) { key in entries && entries[key].Str? && entries[key].s != "" }

  predicate Optional(entries: Body, key: string, cap: nat, text: Option<string>) {
    && (text.Some? <==> HasText(entries, key))
    && (text.Some? ==> Shows(entries[key].s, cap, text.value))
  }

  predicate Exactly(entries: Body, key: string, text: Option<string>) {
    && (text.Some? <==> HasText(entries, key))
    && (text.Some? ==> text.value == entries[key].s)
  }

  /** What is stored is a companion: it has a safe id and a name; whatever else is not in shape
      reads as missing. */
  predicate IsEntry(item: Json, e: Entry) {
    && item.Dict?
    && "id" in item.entries && item.entries["id"] == Str(e.id) && IsSafeId(e.id)
    && HasText(item.entries, "name") && e.name != "" && Shows(item.entries["name"].s, 60, e.name)
    && Optional(item.entries, "blurb", 280, e.blurb)
    && Optional(item.entries, "voice_label", 60, e.voiceLabel)
    && Exactly(item.entries, "portrait_asset", e.portrait)
    && Exactly(item.entries, "full_body_asset", e.fullBody)
    && (e.starter <==> "source" in item.entries && item.entries["source"] == Str("starter"))
    && (e.hidden <==> "hidden" in item.entries && item.entries["hidden"] == Bool(true))
  }

  lemma ShowsSlice(text: string, cap: nat, shown: string)
    requires cap > 0
    ensures Shows(text, cap, shown) <==> shown == Slice(Strip(text), 0, cap)
  {
  }

  lemma OptionalIs(entries: Body, key: string, cap: nat, text: Option<string>)
    requires cap > 0
    ensures Optional(entries, key, cap, text) <==> text == Capped(Get(entries, key), cap)
  {
    if text.Some? && HasText(entries, key) { ShowsSlice(entries[key].s, cap, text.value); }
  }

  lemma ExactlyIs(entries: Body, key: string, text: Option<string>)
    ensures Exactly(entries, key, text) <==> text == NonEmpty(Get(entries, key))
  {
  }

  lemma EntryReadIff(item: Json, e: Entry)
    ensures ReadEntry(item) == Some(e) <==> IsEntry(item, e)
  {
    if item.Dict? {
      OptionalIs(item.entries, "blurb", 280, e.blurb);
      OptionalIs(item.entries, "voice_label", 60, e.voiceLabel);
      ExactlyIs(item.entries, "portrait_asset", e.portrait);
      ExactlyIs(item.entries, "full_body_asset", e.fullBody);
      NamedIff(item.entries, e.name);
    }
  }

  lemma NamedIff(entries: Body, name: string)
    ensures HasText(entries, "name") && name != "" && Shows(entries["name"].s, 60, name) <==>
            var stored := Get(entries, "name");
            stored.Str? && name != "" && name == Slice(Strip(stored.s), 0, 60)
  {
    assert Strip("") == "";
    if "name" in entries && entries["name"].Str? { ShowsSlice(entries["name"].s, 60, name); }
  }

  type Reading = (Json, Entry) -> bool

  function AsEntry(): Reading { (item, e) => IsEntry(item, e) }

  /** The roster is made of the stored companions, in order; `at` says where each is stored. */
  ghost predicate Lists(makes: Reading, items: seq<Json>, crew: seq<Entry>, at: seq<nat>) {
    && |at| == |crew|
    && (forall m :: 0 <= m < |at| ==> at[m] < |items| && makes(items[at[m]], crew[m]))
    && (forall m, n :: 0 <= m < n < |at| ==> at[m] < at[n])
    && (forall i: nat :: i < |items| && i !in at ==> NoEntry(makes, items[i]))
  }

  ghost predicate NoEntry(makes: Reading, item: Json) { forall e :: !makes(item, e) }

  lemma {:induction false} ListedEach(makes: Reading, read: Json -> Option<Entry>, items: seq<Json>)
    returns (at: seq<nat>)
    requires forall item, e :: makes(item, e) <==> read(item) == Some(e)
    ensures Lists(makes, items, ReadEach(read, items), at)
  {
    at := [];
    if items != [] {
      var i := |items| - 1;
      var front := ListedEach(makes, read, items[..i]);
      if read(items[i]).Some? {
        at := front + [i];
        OneMore(makes, items, ReadEach(read, items[..i]), front, read(items[i]).value);
      } else {
        at := front;
        NoneMore(makes, items, ReadEach(read, items[..i]), front);
      }
    }
  }

  lemma OneMore(makes: Reading, items: seq<Json>, crew: seq<Entry>, at: seq<nat>, e: Entry)
    requires items != [] && Lists(makes, items[..|items| - 1], crew, at) && makes(items[|items| - 1], e)
    ensures Lists(makes, items, crew + [e], at + [|items| - 1])
  {
    var i := |items| - 1;
    var all := at + [i];
    forall k: nat | k < |items| && k !in all ensures NoEntry(makes, items[k]) {
      assert all[|at|] == i;
      assert items[..i][k] == items[k];
    }
  }

  lemma NoneMore(makes: Reading, items: seq<Json>, crew: seq<Entry>, at: seq<nat>)
    requires items != [] && Lists(makes, items[..|items| - 1], crew, at) && NoEntry(makes, items[|items| - 1])
    ensures Lists(makes, items, crew, at)
  {
    var i := |items| - 1;
    forall k: nat | k < |items| && k !in at ensures NoEntry(makes, items[k]) {
      if k < i { assert items[..i][k] == items[k]; }
    }
  }

  lemma RosterListed(items: seq<Json>) returns (at: seq<nat>)
    ensures Lists(AsEntry(), items, ReadEach(ReadEntry, items), at)
  {
    forall item, e ensures AsEntry()(item, e) <==> ReadEntry(item) == Some(e) {
      EntryReadIff(item, e);
    }
    at := ListedEach(AsEntry(), ReadEntry, items);
  }

  /** A stored choice counts if it is one there is; the room is listed either way. */
  ghost predicate Counted(stored: Body, known: string -> bool, choices: Choices) {
    && (forall room :: room in choices <==> room in stored && room != "")
    && (forall room, id :: room in choices ==> (choices[room] == Some(id) <==> stored[room] == Str(id) && known(id)))
  }

  lemma CountedIs(stored: Body, known: string -> bool)
    ensures Counted(stored, known, ReadChoices(stored, known))
  {
  }

  /** Each configured room has the keeper who is at home there, if `known` has it. */
  ghost predicate AtHome(setting: Setting, rooms: set<string>, known: string -> bool, keepers: Choices) {
    && (forall room :: room in keepers <==>
          room in rooms && room != "" && setting.resident(room).Some? && known(setting.resident(room).value))
    && (forall room :: room in keepers ==> keepers[room] == setting.resident(room))
  }

  predicate InRoster(crew: seq<Entry>, id: string) { exists i :: 0 <= i < |crew| && crew[i].id == id }

  function Member(crew: seq<Entry>): string -> bool { id => InRoster(crew, id) }

  lemma MemberIs(crew: seq<Entry>, id: string)
    ensures Member(crew)(id) <==> Known(Ids(crew))(id)
  {
  }

  lemma CountedAlike(stored: Body, known: string -> bool, other: string -> bool, choices: Choices)
    requires Counted(stored, known, choices) && forall id :: known(id) <==> other(id)
    ensures Counted(stored, other, choices)
  {
  }

  /** Without a file that can be read as an object, the crew is the starters, each at home. */
  lemma FirstVisit(setting: Setting, file: Option<Json>, rooms: set<string>)
    requires file.None? || !file.value.Dict?
    ensures var st := Read(setting, file, rooms);
            st.crew == setting.starters && st.doorways == map[] && AtHome(setting, rooms, id => true, st.keepers)
  {
  }

  /** What is read from any file that holds an object, well formed or not: the companions of the
      stored list that are in shape, the keepers among them, and the doorways there are. Residents
      are seeded only when no keepers are stored at all. */
  lemma ReadMeans(setting: Setting, data: Body, rooms: set<string>) returns (at: seq<nat>)
    ensures var st := Read(setting, Some(Dict(data)), rooms);
            && Lists(AsEntry(), if "crew" in data && data["crew"].List? then data["crew"].items else [], st.crew, at)
            && (if "keepers" in data && data["keepers"].Dict?
                then Counted(data["keepers"].entries, Member(st.crew), st.keepers)
                else AtHome(setting, rooms, Member(st.crew), st.keepers))
            && Counted(if "doorways" in data && data["doorways"].Dict? then data["doorways"].entries else map[],
                       DoorwayName, st.doorways)
  {
    var crew := Get(data, "crew");
    at := RosterListed(if crew.List? then crew.items else []);
    var st := Read(setting, Some(Dict(data)), rooms);
    forall id ensures Member(st.crew)(id) <==> Known(Ids(st.crew))(id) {
      MemberIs(st.crew, id);
    }
    forall d ensures IsDoorway(d) <==> DoorwayName(d) {
      DoorwayNames(d);
    }
    var keepers, doorways := Get(data, "keepers"), Get(data, "doorways");
    if keepers.Dict? {
      CountedIs(keepers.entries, Known(Ids(st.crew)));
      CountedAlike(keepers.entries, Known(Ids(st.crew)), Member(st.crew), st.keepers);
    }
    var stored := if doorways.Dict? then doorways.entries else map[];
    CountedIs(stored, IsDoorway);
    CountedAlike(stored, IsDoorway, DoorwayName, ReadChoices(stored, IsDoorway));
  }
}
