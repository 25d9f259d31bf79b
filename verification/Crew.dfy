/** The crew registry (`crew.py`) and its handlers in the API: companions, who keeps which
    room, and the file they are stored in. */
module Crew {
  import opened CrewIds
  import opened JsonValues
  import opened PyText

  const NAME_MAX := 60
  const BLURB_MAX := 280
  const VOICE_LABEL_MAX := 60

  const DOORWAYS: seq<string> := [
    "study", "archive", "garden", "kitchen", "lounge", "music", "observatory",
    "post", "travel", "vault", "wellness", "hallway", "servers"]

  datatype Entry = Entry(id: string, name: string, blurb: Option<string>, voiceLabel: Option<string>,
                         portrait: Option<string>, fullBody: Option<string>, starter: bool, hidden: bool)

  type Choices = map<string, Option<string>>

  datatype State = State(crew: seq<Entry>, keepers: Choices, doorways: Choices)

  /** What the code fixes and the model leaves open: the starter crew, which starter is at home
      in which room, and how names are lower-cased. */
  datatype Setting = Setting(starters: seq<Entry>, resident: string -> Option<string>, lower: string -> string)

  // ---- the stored form ----

  function Text(t: Option<string>): Json { if t.Some? then Str(t.value) else Null }

  function WriteEntry(e: Entry): Json {
    Dict(map["id" := Str(e.id), "name" := Str(e.name), "blurb" := Text(e.blurb), "voice_label" := Text(e.voiceLabel),
             "portrait_asset" := Text(e.portrait), "full_body_asset" := Text(e.fullBody),
             "source" := Str(if e.starter then "starter" else "user"), "hidden" := Bool(e.hidden)])
  }

  function WriteChoices(choices: Choices): Json { Dict(map room | room in choices :: Text(choices[room])) }

  function WriteEach(write: Entry -> Json, crew: seq<Entry>): seq<Json> {
    seq(|crew|, i requires 0 <= i < |crew| => write(crew[i]))
  }

  /** `write_crew` */
  function Write(st: State): Json {
    Dict(map["crew" := List(WriteEach(WriteEntry, st.crew)), "keepers" := WriteChoices(st.keepers),
             "doorways" := WriteChoices(st.doorways)])
  }

  function Capped(j: Json, cap: nat): Option<string> {
    if j.Str? && j.s != "" then Some(Slice(Strip(j.s), 0, cap)) else None
  }

  function NonEmpty(j: Json): Option<string> { if j.Str? && j.s != "" then Some(j.s) else None }

  /** `_normalize_entry` */
  function ReadEntry(item: Json): Option<Entry> {
    if !item.Dict? then None
    else
      var id, name := Get(item.entries, "id"), Get(item.entries, "name");
      if !(id.Str? && IsSafeId(id.s)) || !name.Str? || Slice(Strip(name.s), 0, NAME_MAX) == "" then None
      else Some(Entry(id.s, Slice(Strip(name.s), 0, NAME_MAX),
                      Capped(Get(item.entries, "blurb"), BLURB_MAX),
                      Capped(Get(item.entries, "voice_label"), VOICE_LABEL_MAX),
                      NonEmpty(Get(item.entries, "portrait_asset")),
                      NonEmpty(Get(item.entries, "full_body_asset")),
                      Get(item.entries, "source") == Str("starter"),
                      Get(item.entries, "hidden") == Bool(true)))
  }

  function ReadEach(read: Json -> Option<Entry>, items: seq<Json>): seq<Entry> {
    if items == [] then []
    else
      var last := read(items[|items| - 1]);
      ReadEach(read, items[..|items| - 1]) + if last.Some? then [last.value] else []
  }

  function Ids(crew: seq<Entry>): set<string> { set i | 0 <= i < |crew| :: crew[i].id }

  /** The canon keepers of the configured rooms. */
  function DefaultKeepers(resident: string -> Option<string>, rooms: set<string>): Choices {
    map room | room in rooms && room != "" && resident(room).Some? :: resident(room)
  }

  /** A choice is kept if `known` allows it, and reads as none otherwise. */
  function ReadChoices(stored: map<string, Json>, known: string -> bool): Choices {
    map room | room in stored && room != "" ::
      if stored[room].Str? && known(stored[room].s) then Some(stored[room].s) else None
  }

  predicate IsDoorway(d: string) { d in DOORWAYS }

  function Known(ids: set<string>): string -> bool { id => id in ids }

  /** `read_crew`: what a file that was not readable, or not an object, gives is the starter crew. */
  function Read(setting: Setting, file: Option<Json>, rooms: set<string>): State {
    if file.None? || !file.value.Dict? then
      State(setting.starters, DefaultKeepers(setting.resident, rooms), map[])
    else
      var data := file.value.entries;
      var items, keepers, doorways := Get(data, "crew"), Get(data, "keepers"), Get(data, "doorways");
      var crew := if items.List? then ReadEach(ReadEntry, items.items) else [];
      var home := DefaultKeepers(setting.resident, rooms);
      State(crew,
            if keepers.Dict? then ReadChoices(keepers.entries, Known(Ids(crew)))
            else map room | room in home && home[room].value in Ids(crew) :: home[room],
            if doorways.Dict? then ReadChoices(doorways.entries, IsDoorway) else map[])
  }

  // ---- the state object ----

  function NewEntry(id: string, name: string, blurb: Option<string>, voiceLabel: Option<string>): Entry {
    Entry(id, Strip(name), blurb, voiceLabel, None, None, false, false)
  }

  ghost function Added(st: State, setting: Setting, name: string, blurb: Option<string>, voiceLabel: Option<string>)
    : State
  {
    var id := IdFor(Ids(st.crew), Slugify(setting.lower, name));
    st.(crew := st.crew + [NewEntry(id, name, blurb, voiceLabel)])
  }

  /** The position of the entry with this id; ids that are not safe are never looked for. */
  function FindAt(crew: seq<Entry>, id: string): (r: Option<nat>)
    ensures r.Some? ==> r.value < |crew| && crew[r.value].id == id && IsSafeId(id)
    ensures r.None? ==> !IsSafeId(id) || id !in Ids(crew)
  {
    if crew == [] || !IsSafeId(id) then None
    else
      match FindAt(crew[..|crew| - 1], id)
      case Some(i) => Some(i)
      case None => if crew[|crew| - 1].id == id then Some(|crew| - 1) else None
  }

  function KeptBy(keepers: Choices, id: string): set<string> {
    set room | room in keepers && keepers[room] == Some(id)
  }

  function Cleared(keepers: Choices, id: string): Choices {
    map room | room in keepers :: if keepers[room] == Some(id) then None else keepers[room]
  }

  function Removed(st: State, id: string): State {
    match FindAt(st.crew, id)
    case None => st
    case Some(i) =>
      if st.crew[i].starter then st
      else st.(crew := st.crew[..i] + st.crew[i + 1..], keepers := Cleared(st.keepers, id))
  }

  class CrewState {
    var crew: seq<Entry>
    var keepers: Choices
    var doorways: Choices

    function Value(): State
      reads this
    {
      State(crew, keepers, doorways)
    }

    constructor (st: State)
      ensures Value() == st
    {
      crew, keepers, doorways := st.crew, st.keepers, st.doorways;
    }

    method Find(id: string) returns (i: Option<nat>)
      ensures i == FindAt(crew, id)
    {
      if !IsSafeId(id) {
        return None;
      }
      for k := 0 to |crew|
        invariant FindAt(crew[..k], id) == None
      {
        assert crew[..k + 1][..k] == crew[..k];
        if crew[k].id == id {
          FoundInPrefix(crew, k + 1, id);
          return Some(k);
        }
      }
      assert crew[..|crew|] == crew;
      return None;
    }

    method Add(setting: Setting, name: string, blurb: Option<string>, voiceLabel: Option<string>) returns (entry: Entry)
      modifies this
      ensures Value() == Added(old(Value()), setting, name, blurb, voiceLabel)
      ensures crew == old(crew) + [entry]
    {
      var id := UniqueId(Ids(crew), Slugify(setting.lower, name));
      entry := NewEntry(id, name, blurb, voiceLabel);
      crew := crew + [entry];
    }

    /** The rooms come back sorted by their ids. */
    method ClearKeepersFor(id: string) returns (cleared: seq<string>)
      modifies this`keepers
      ensures Ascending(cleared) && forall room :: room in cleared <==> room in KeptBy(old(keepers), id)
      ensures keepers == Cleared(old(keepers), id)
    {
      var kept := set room | room in keepers && keepers[room] == Some(id);
      cleared := SortTexts(kept);
      var todo := kept;
      while todo != {}
        invariant todo <= kept <= keepers.Keys == old(keepers).Keys
        invariant forall room :: room in keepers ==>
                    keepers[room] == if room in kept - todo then None else old(keepers)[room]
      {
        var room :| room in todo;
        keepers := keepers[room := None];
        todo := todo - {room};
      }
    }

    method Remove(id: string) returns (entry: Option<Entry>, cleared: seq<string>)
      modifies this
      ensures Value() == Removed(old(Value()), id)
      ensures var at := FindAt(old(crew), id);
              entry == if at.None? || old(crew)[at.value].starter then None else Some(old(crew)[at.value])
      ensures Ascending(cleared)
      ensures forall room :: room in cleared <==> entry.Some? && room in KeptBy(old(keepers), id)
      ensures entry.None? ==> cleared == [] && Value() == old(Value())
    {
      var i := Find(id);
      if i.None? || crew[i.value].starter {
        return None, [];
      }
      entry := Some(crew[i.value]);
      crew := crew[..i.value] + crew[i.value + 1..];
      cleared := ClearKeepersFor(id);
    }
  }

  lemma {:induction false} FoundInPrefix(crew: seq<Entry>, n: nat, id: string)
    requires n <= |crew| && FindAt(crew[..n], id).Some?
    ensures FindAt(crew, id) == FindAt(crew[..n], id)
  {
    if n == |crew| {
      assert crew[..n] == crew;
    } else {
      assert crew[..|crew| - 1][..n] == crew[..n];
      FoundInPrefix(crew[..|crew| - 1], n, id);
    }
  }

  // ---- the handlers ----

  /** A text field of a request body: refused (422), or its trimmed text if there is any. */
  datatype Field = Bad | Good(text: Option<string>)

  /** `_crew_text` */
  function ReadField(body: map<string, Json>, key: string, cap: nat, required: bool): Field {
    var none := if required then Bad else Good(None);
    if key !in body || body[key] == Null || body[key] == Str("") then none
    else if !body[key].Str? then Bad
    else if Strip(body[key].s) == "" then none
    else if |Strip(body[key].s)| > cap then Bad
    else Good(Some(Strip(body[key].s)))
  }

  datatype Request =
    | AddCompanion(body: map<string, Json>)
    | Patch(id: string, body: map<string, Json>)
    | Delete(id: string)
    | SetKeeper(room: string, companion: Json)
    | SetDoorway(room: string, doorway: Json)
    | UploadPortrait(id: string)
    | DropPortrait(id: string)

  /** The entry after a patch, unless a field is refused. */
  function Patched(e: Entry, body: map<string, Json>): Option<Entry> {
    var name, blurb, voice := ReadField(body, "name", NAME_MAX, true), ReadField(body, "blurb", BLURB_MAX, false),
                              ReadField(body, "voice_label", VOICE_LABEL_MAX, false);
    if ("name" in body && name.Bad?) || ("blurb" in body && blurb.Bad?) || ("voice_label" in body && voice.Bad?)
       || ("hidden" in body && !body["hidden"].Bool?) then None
    else Some(e.(name := if "name" in body then name.text.value else e.name,
                 blurb := if "blurb" in body then blurb.text else e.blurb,
                 voiceLabel := if "voice_label" in body then voice.text else e.voiceLabel,
                 hidden := if "hidden" in body then body["hidden"].b else e.hidden))
  }

  function StarterPortrait(starters: seq<Entry>, id: string): Option<string> {
    if starters == [] then None
    else if starters[0].id == id then starters[0].portrait
    else StarterPortrait(starters[1..], id)
  }

  function PortraitRoute(id: string): string { "/api/crew/" + id + "/portrait" }

  /** The state a request leaves to be written, or none when it is refused. `rooms` are the
      configured rooms, `stored` whether a portrait was there to delete. */
  ghost function Handled(setting: Setting, rooms: set<string>, st: State, request: Request, stored: bool)
    : Option<State>
  {
    match request
    case AddCompanion(body) =>
      var name, blurb, voice := ReadField(body, "name", NAME_MAX, true), ReadField(body, "blurb", BLURB_MAX, false),
                                ReadField(body, "voice_label", VOICE_LABEL_MAX, false);
      if name.Bad? || blurb.Bad? || voice.Bad? then None
      else Some(Added(st, setting, name.text.value, blurb.text, voice.text))
    case Patch(id, body) =>
      var i := FindAt(st.crew, id);
      if i.None? then None
      else
        var e := Patched(st.crew[i.value], body);
        if e.None? then None else Some(st.(crew := st.crew[i.value := e.value]))
    case Delete(id) =>
      var i := FindAt(st.crew, id);
      if i.None? || st.crew[i.value].starter then None else Some(Removed(st, id))
    case SetKeeper(room, companion) =>
      if room !in rooms || !(companion.Null? || (companion.Str? && FindAt(st.crew, companion.s).Some?)) then None
      else Some(st.(keepers := st.keepers[room := if companion.Null? then None else Some(companion.s)]))
    case SetDoorway(room, doorway) =>
      if room !in rooms || !(doorway.Null? || (doorway.Str? && IsDoorway(doorway.s))) then None
      else Some(st.(doorways := st.doorways[room := if doorway.Null? then None else Some(doorway.s)]))
    case UploadPortrait(id) =>
      var i := FindAt(st.crew, id);
      if i.None? then None
      else
        var entry := st.crew[i.value];
        Some(st.(crew := st.crew[i.value := entry.(portrait := Some(PortraitRoute(entry.id)))]))
    case DropPortrait(id) =>
      var i := FindAt(st.crew, id);
      if i.None? || !stored then None
      else
        var e := st.crew[i.value];
        Some(st.(crew := st.crew[i.value :=
                   e.(portrait := if e.starter then StarterPortrait(setting.starters, e.id) else None)]))
  }

  // ---- sound states ----

  predicate Tidy(t: Option<string>, cap: nat) {
    t.Some? ==> t.value != "" && Trimmed(t.value) && |t.value| <= cap
  }

  predicate SoundEntry(e: Entry) {
    && Slug(e.id) && Tidy(Some(e.name), NAME_MAX) && Tidy(e.blurb, BLURB_MAX) && Tidy(e.voiceLabel, VOICE_LABEL_MAX)
    && e.portrait != Some("") && e.fullBody != Some("")
  }

  predicate DistinctIds(crew: seq<Entry>) { forall i, j :: 0 <= i < j < |crew| ==> crew[i].id != crew[j].id }

  predicate SoundKeepers(keepers: Choices, ids: set<string>) {
    forall room :: room in keepers ==> room != "" && (keepers[room].None? || keepers[room].value in ids)
  }

  /** Ids are distinct, texts are in shape, and every keeper is a companion of the roster. */
  predicate Sound(st: State) {
    && (forall i :: 0 <= i < |st.crew| ==> SoundEntry(st.crew[i]))
    && DistinctIds(st.crew)
    && SoundKeepers(st.keepers, Ids(st.crew))
    && (forall room :: room in st.doorways ==>
          room != "" && (st.doorways[room].None? || IsDoorway(st.doorways[room].value)))
  }

  predicate SoundSetting(setting: Setting) {
    && (forall i :: 0 <= i < |setting.starters| ==> SoundEntry(setting.starters[i]) && setting.starters[i].starter)
    && DistinctIds(setting.starters)
  }

  ghost predicate Residents(setting: Setting) {
    forall room :: setting.resident(room).Some? ==> setting.resident(room).value in Ids(setting.starters)
  }

  // ---- reading back what was written ----

  lemma StripWhole(t: string, cap: nat)
    requires Trimmed(t) && |t| <= cap
    ensures Slice(Strip(t), 0, cap) == t
  {
    StripTrims(t);
  }

  lemma ReadEntryBack(e: Entry)
    requires SoundEntry(e)
    ensures ReadEntry(WriteEntry(e)) == Some(e)
  {
    StripWhole(e.name, NAME_MAX);
    CappedBack(e.blurb, BLURB_MAX);
    CappedBack(e.voiceLabel, VOICE_LABEL_MAX);
    SafeIdIsSlugOrBroken(e.id);
  }

  lemma CappedBack(t: Option<string>, cap: nat)
    requires Tidy(t, cap)
    ensures Capped(Text(t), cap) == t
  {
    if t.Some? { StripWhole(t.value, cap); }
  }

  lemma {:induction false} ReadEachBack(read: Json -> Option<Entry>, write: Entry -> Json, crew: seq<Entry>)
    requires forall i :: 0 <= i < |crew| ==> read(write(crew[i])) == Some(crew[i])
    ensures ReadEach(read, WriteEach(write, crew)) == crew
  {
    if crew != [] {
      var n := |crew| - 1;
      assert WriteEach(write, crew)[..n] == WriteEach(write, crew[..n]);
      ReadEachBack(read, write, crew[..n]);
    }
  }

  lemma ReadEntriesBack(crew: seq<Entry>)
    requires forall i :: 0 <= i < |crew| ==> SoundEntry(crew[i])
    ensures ReadEach(ReadEntry, WriteEach(WriteEntry, crew)) == crew
  {
    forall i | 0 <= i < |crew| ensures ReadEntry(WriteEntry(crew[i])) == Some(crew[i]) {
      ReadEntryBack(crew[i]);
    }
    ReadEachBack(ReadEntry, WriteEntry, crew);
  }

  lemma ReadChoicesBack(choices: Choices, known: string -> bool)
    requires forall room :: room in choices ==> room != "" && (choices[room].None? || known(choices[room].value))
    ensures ReadChoices(WriteChoices(choices).entries, known) == choices
  {
  }

  /** Reading what was written gives a sound state back unchanged, whatever rooms are configured now. */
  lemma ReadWrite(setting: Setting, st: State, rooms: set<string>)
    requires Sound(st)
    ensures Read(setting, Some(Write(st)), rooms) == st
  {
    ReadEntriesBack(st.crew);
    ReadChoicesBack(st.keepers, Known(Ids(st.crew)));
    ReadChoicesBack(st.doorways, IsDoorway);
  }

  // ---- requests keep the state sound ----

  lemma ReadFieldTidy(body: map<string, Json>, key: string, cap: nat, required: bool)
    ensures match ReadField(body, key, cap, required)
            case Bad => true
            case Good(text) => Tidy(text, cap) && (required ==> text.Some?)
  {
    if key in body && body[key].Str? { StripTrims(body[key].s); }
  }

  lemma {:induction false} IdsSize(crew: seq<Entry>)
    ensures |Ids(crew)| <= |crew|
  {
    if crew == [] {
      assert Ids(crew) == {};
    } else {
      var n := |crew| - 1;
      IdsSize(crew[..n]);
      assert Ids(crew) == Ids(crew[..n]) + {crew[n].id};
    }
  }

  lemma AddedSound(setting: Setting, st: State, name: string, blurb: Option<string>, voice: Option<string>)
    requires Sound(st) && Roomy(Ids(st.crew))
    requires Tidy(Some(name), NAME_MAX) && Tidy(blurb, BLURB_MAX) && Tidy(voice, VOICE_LABEL_MAX)
    ensures Sound(Added(st, setting, name, blurb, voice))
  {
    var id := IdFor(Ids(st.crew), Slugify(setting.lower, name));
    SlugifyIsSlug(setting.lower, name);
    UniqueIdIsSlug(Ids(st.crew), Slugify(setting.lower, name));
    StripTrims(name);
    AppendSound(st, NewEntry(id, name, blurb, voice));
  }

  lemma AppendSound(st: State, e: Entry)
    requires Sound(st) && SoundEntry(e) && e.id !in Ids(st.crew)
    ensures Sound(st.(crew := st.crew + [e]))
  {
    assert forall i :: 0 <= i < |st.crew| ==> st.crew[i].id in Ids(st.crew);
    IdsKept(st.crew, st.crew + [e]);
  }

  lemma IdsKept(crew: seq<Entry>, after: seq<Entry>)
    requires |crew| <= |after| && forall i :: 0 <= i < |crew| ==> after[i].id == crew[i].id
    ensures Ids(crew) <= Ids(after)
  {
    forall id | id in Ids(crew) ensures id in Ids(after) {
      var i :| 0 <= i < |crew| && crew[i].id == id;
      assert after[i].id == id;
    }
  }

  lemma ReplacedSound(st: State, i: nat, e: Entry)
    requires Sound(st) && i < |st.crew| && SoundEntry(e) && e.id == st.crew[i].id
    ensures Sound(st.(crew := st.crew[i := e]))
  {
    IdsKept(st.crew, st.crew[i := e]);
  }

  /** Removing a companion leaves every other one as it was, and clears exactly the rooms it kept. */
  lemma RemovedSound(st: State, id: string)
    requires Sound(st) && FindAt(st.crew, id).Some? && !st.crew[FindAt(st.crew, id).value].starter
    ensures var after := Removed(st, id);
            && Sound(after) && id !in Ids(after.crew) && Ids(after.crew) == Ids(st.crew) - {id}
            && (forall e :: e in after.crew <==> e in st.crew && e.id != id)
            && after.keepers.Keys == st.keepers.Keys && after.doorways == st.doorways
            && forall room :: room in st.keepers ==>
                 after.keepers[room] == if st.keepers[room] == Some(id) then None else st.keepers[room]
  {
    var i, after := FindAt(st.crew, id).value, Removed(st, id);
    WithoutAt(st.crew, i);
    assert forall k :: 0 <= k < |after.crew| ==> SoundEntry(after.crew[k]);
  }

  lemma WithoutAt(crew: seq<Entry>, i: nat)
    requires DistinctIds(crew) && i < |crew|
    ensures var after := crew[..i] + crew[i + 1..];
            && Ids(after) == Ids(crew) - {crew[i].id} && DistinctIds(after)
            && forall k :: 0 <= k < |after| ==> after[k] == crew[if k < i then k else k + 1]
  {
    var after := crew[..i] + crew[i + 1..];
    assert forall k :: 0 <= k < |after| ==> after[k] == crew[if k < i then k else k + 1];
    forall x ensures x in Ids(after) <==> x in Ids(crew) - {crew[i].id} {
      if x in Ids(after) {
        var k :| 0 <= k < |after| && after[k].id == x;
        assert crew[if k < i then k else k + 1].id == x;
      }
      if x in Ids(crew) - {crew[i].id} {
        var k :| 0 <= k < |crew| && crew[k].id == x;
        assert after[if k < i then k else k - 1].id == x;
      }
    }
  }

  lemma {:induction false} StarterPortraitSound(starters: seq<Entry>, id: string)
    requires forall i :: 0 <= i < |starters| ==> SoundEntry(starters[i])
    ensures StarterPortrait(starters, id) != Some("")
  {
    if starters != [] { StarterPortraitSound(starters[1..], id); }
  }

  lemma HandledSound(setting: Setting, rooms: set<string>, st: State, request: Request, stored: bool)
    requires SoundSetting(setting) && Sound(st) && "" !in rooms && Roomy(Ids(st.crew))
    requires Handled(setting, rooms, st, request, stored).Some?
    ensures Sound(Handled(setting, rooms, st, request, stored).value)
    ensures |Handled(setting, rooms, st, request, stored).value.crew| <= |st.crew| + 1
  {
    match request
    case AddCompanion(body) =>
      ReadFieldTidy(body, "name", NAME_MAX, true);
      ReadFieldTidy(body, "blurb", BLURB_MAX, false);
      ReadFieldTidy(body, "voice_label", VOICE_LABEL_MAX, false);
      AddedSound(setting, st, ReadField(body, "name", NAME_MAX, true).text.value,
                 ReadField(body, "blurb", BLURB_MAX, false).text,
                 ReadField(body, "voice_label", VOICE_LABEL_MAX, false).text);
    case Patch(id, body) =>
      ReadFieldTidy(body, "name", NAME_MAX, true);
      ReadFieldTidy(body, "blurb", BLURB_MAX, false);
      ReadFieldTidy(body, "voice_label", VOICE_LABEL_MAX, false);
      var i := FindAt(st.crew, id).value;
      ReplacedSound(st, i, Patched(st.crew[i], body).value);
    case Delete(id) =>
      RemovedSound(st, id);
    case SetKeeper(room, companion) =>
    case SetDoorway(room, doorway) =>
    case UploadPortrait(id) =>
      var i := FindAt(st.crew, id).value;
      ReplacedSound(st, i, st.crew[i].(portrait := Some(PortraitRoute(st.crew[i].id))));
    case DropPortrait(id) =>
      var i := FindAt(st.crew, id).value;
      var e := st.crew[i];
      StarterPortraitSound(setting.starters, e.id);
      ReplacedSound(st, i, e.(portrait := if e.starter then StarterPortrait(setting.starters, e.id) else None));
  }

  // ---- whole runs ----

  /** One request as it arrives: the rooms configured then, and whether a portrait file was there. */
  datatype Arrival = Arrival(request: Request, rooms: set<string>, stored: bool)

  /** What a request leaves in the file; a refused one writes nothing. */
  ghost function FileAfter(setting: Setting, file: Option<Json>, arrival: Arrival): Option<Json> {
    var st := Read(setting, file, arrival.rooms);
    var after := Handled(setting, arrival.rooms, st, arrival.request, arrival.stored);
    if after.Some? then Some(Write(after.value)) else file
  }

  ghost function FileOf(setting: Setting, run: seq<Arrival>): Option<Json> {
    if run == [] then None else FileAfter(setting, FileOf(setting, run[..|run| - 1]), run[|run| - 1])
  }

  /** There is no file yet, or it holds a sound state of at most `n` companions. */
  ghost predicate Clean(file: Option<Json>, n: nat) {
    file == None || exists st :: Sound(st) && |st.crew| <= n && file == Some(Write(st))
  }

  lemma ReadClean(setting: Setting, file: Option<Json>, n: nat, rooms: set<string>)
    requires SoundSetting(setting) && Residents(setting) && Clean(file, n) && |setting.starters| <= n
    ensures Sound(Read(setting, file, rooms)) && |Read(setting, file, rooms).crew| <= n
  {
    if file.Some? {
      var st :| Sound(st) && |st.crew| <= n && file == Some(Write(st));
      ReadWrite(setting, st, rooms);
    }
  }

  lemma RoomyFor(crew: seq<Entry>, n: nat)
    requires |crew| <= n && |Decimal(n + 2)| <= 54
    ensures Roomy(Ids(crew))
  {
    IdsSize(crew);
    DecimalGrows(|Ids(crew)| + 2, n + 2);
  }

  lemma {:induction false} RunsStayClean(setting: Setting, run: seq<Arrival>)
    requires SoundSetting(setting) && Residents(setting)
    requires forall k :: 0 <= k < |run| ==> "" !in run[k].rooms
    requires |Decimal(|setting.starters| + |run| + 2)| <= 54
    ensures Clean(FileOf(setting, run), |setting.starters| + |run|)
  {
    if run != [] {
      var n := |setting.starters| + |run| - 1;
      var before, arrival := run[..|run| - 1], run[|run| - 1];
      DecimalGrows(n + 2, n + 3);
      RunsStayClean(setting, before);
      ReadClean(setting, FileOf(setting, before), n, arrival.rooms);
      var st := Read(setting, FileOf(setting, before), arrival.rooms);
      RoomyFor(st.crew, n);
      var after := Handled(setting, arrival.rooms, st, arrival.request, arrival.stored);
      if after.Some? {
        HandledSound(setting, arrival.rooms, st, arrival.request, arrival.stored);
        assert Sound(after.value) && FileOf(setting, run) == Some(Write(after.value));
      }
    }
  }

  /** In every run of requests from a person's first visit, whatever rooms are configured when:
      the crew that is read has distinct proper ids and no keeper who is not in it, and what
      the last accepted request stored reads back as the state it left. */
  lemma EveryCrewSound(setting: Setting, run: seq<Arrival>, last: Arrival, rooms: set<string>)
    requires SoundSetting(setting) && Residents(setting)
    requires "" !in last.rooms && forall k :: 0 <= k < |run| ==> "" !in run[k].rooms
    requires |Decimal(|setting.starters| + |run| + 3)| <= 54
    ensures var st := Read(setting, FileOf(setting, run), last.rooms);
            var after := Handled(setting, last.rooms, st, last.request, last.stored);
            && Sound(st)
            && (after.Some? ==>
                  Sound(after.value) && Read(setting, FileOf(setting, run + [last]), rooms) == after.value)
  {
    var n := |setting.starters| + |run|;
    DecimalGrows(n + 2, n + 3);
    RunsStayClean(setting, run);
    ReadClean(setting, FileOf(setting, run), n, last.rooms);
    var st := Read(setting, FileOf(setting, run), last.rooms);
    RoomyFor(st.crew, n);
    assert (run + [last])[..|run|] == run;
    if Handled(setting, last.rooms, st, last.request, last.stored).Some? {
      HandledSound(setting, last.rooms, st, last.request, last.stored);
      ReadWrite(setting, Handled(setting, last.rooms, st, last.request, last.stored).value, rooms);
    }
  }

  // ---- what a room shows ----

  datatype Keeper = Keeper(id: string, name: string, portrait: Option<string>)

  /** `keeper_of`, without the initial */
  function KeeperOf(st: State, room: string): Option<Keeper> {
    if room !in st.keepers || st.keepers[room].None? then None
    else
      match FindAt(st.crew, st.keepers[room].value)
      case None => None
      case Some(i) => Some(Keeper(st.crew[i].id, st.crew[i].name, st.crew[i].portrait))
  }

  /** In a sound state every keeper that was chosen is shown, by its present name. */
  lemma ChosenKeeperIsShown(st: State, room: string)
    requires Sound(st)
    ensures KeeperOf(st, room).Some? <==> room in st.keepers && st.keepers[room].Some?
    ensures KeeperOf(st, room).Some? ==>
              var k := KeeperOf(st, room).value;
              st.keepers[room] == Some(k.id)
              && exists i :: 0 <= i < |st.crew| && st.crew[i].id == k.id && st.crew[i].name == k.name
  {
    if room in st.keepers && st.keepers[room].Some? {
      var i :| 0 <= i < |st.crew| && st.crew[i].id == st.keepers[room].value;
      SafeIdIsSlugOrBroken(st.crew[i].id);
    }
  }
}
