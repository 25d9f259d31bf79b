/** Teaching while building (`learning.py`): how often an idea is offered to a person before it is
    taken as known. */
module Learning {
  import opened PyText

  const AGAIN_UNTIL := 3
  const GOT_IT_FAMILIAR := 2

  type Day = int

  datatype Mode = Build | Occasional | Plain

  datatype Stage = First | Again | Familiar | Off

  datatype Entry = Entry(offered: nat, gotIt: nat, firstProject: string, firstContext: string, firstSeen: Day,
                         lastSeen: Day, projects: seq<string>)

  /** What an encounter is answered; `met` is the first project and context, told on "again". */
  datatype Reply = Reply(concept: string, stage: Stage, met: Option<(string, string)>)

  /** A person's learning memory. */
  datatype Memory = Memory(mode: Mode, concepts: map<string, Entry>, lastOfferDay: Option<Day>)

  const BLANK := Memory(Build, map[], None)

  function StageOf(entry: Option<Entry>): Stage {
    if entry.None? then First
    else if entry.value.gotIt >= GOT_IT_FAMILIAR || entry.value.offered >= AGAIN_UNTIL then Familiar
    else if entry.value.offered >= 1 then Again
    else First
  }

  function EntryOf(m: Memory, concept: string): Option<Entry> {
    if concept in m.concepts then Some(m.concepts[concept]) else None
  }

  predicate Offer(stage: Stage) { stage == First || stage == Again }

  function StageToday(m: Memory, concept: string, today: Day): Stage {
    var stage := StageOf(EntryOf(m, concept));
    if m.mode == Plain && stage != Familiar then Off
    else if m.mode == Occasional && Offer(stage) && m.lastOfferDay == Some(today) then Off
    else stage
  }

  function Shortened(context: string): string { if |context| <= 120 then context else context[..120] }

  function LastTwenty(projects: seq<string>): seq<string> {
    if |projects| <= 20 then projects else projects[|projects| - 20..]
  }

  function Touched(entry: Option<Entry>, stage: Stage, project: string, context: string, today: Day): Entry {
    var e := if entry.Some? then entry.value else Entry(0, 0, project, Shortened(context), today, today, []);
    e.(projects := if project in e.projects then e.projects else LastTwenty(e.projects + [project]),
       lastSeen := today,
       offered := if Offer(stage) then e.offered + 1 else e.offered)
  }

  function Encountered(m: Memory, concept: string, project: string, context: string, today: Day): (Memory, Reply) {
    var stage := StageToday(m, concept, today);
    var e := Touched(EntryOf(m, concept), stage, project, context, today);
    (Memory(m.mode, m.concepts[concept := e], if Offer(stage) then Some(today) else m.lastOfferDay),
     Reply(concept, stage, if stage == Again then Some((e.firstProject, e.firstContext)) else None))
  }

  function Known(m: Memory, concept: string): (Memory, Stage) {
    if concept !in m.concepts then (m, First)
    else
      var e := m.concepts[concept].(gotIt := m.concepts[concept].gotIt + 1);
      (m.(concepts := m.concepts[concept := e]), StageOf(Some(e)))
  }

  class LearningMemory {
    var mode: Mode
    var concepts: map<string, Entry>
    var lastOfferDay: Option<Day>

    function Value(): Memory
      reads this
    {
      Memory(mode, concepts, lastOfferDay)
    }

    constructor ()
      ensures Value() == BLANK
    {
      mode, concepts, lastOfferDay := Build, map[], None;
    }

    method SetMode(chosen: Mode)
      modifies this
      ensures Value() == After(old(Value()), Choose(chosen))
    {
      mode := chosen;
    }

    method Encounter(concept: string, project: string, context: string, today: Day) returns (reply: Reply)
      modifies this
      ensures (Value(), reply) == Encountered(old(Value()), concept, project, context, today)
    {
      var found := EntryOf(Value(), concept);
      var stage := StageOf(found);
      if mode == Plain {
        stage := if stage != Familiar then Off else stage;
      } else if mode == Occasional && Offer(stage) && lastOfferDay == Some(today) {
        stage := Off;
      }
      var entry: Entry;
      if found.None? {
        entry := Entry(0, 0, project, Shortened(context), today, today, []);
      } else {
        entry := found.value;
      }
      if project !in entry.projects {
        entry := entry.(projects := LastTwenty(entry.projects + [project]));
      }
      entry := entry.(lastSeen := today);
      if Offer(stage) {
        entry := entry.(offered := entry.offered + 1);
        lastOfferDay := Some(today);
      }
      concepts := concepts[concept := entry];
      reply := Reply(concept, stage, None);
      if stage == Again {
        reply := reply.(met := Some((entry.firstProject, entry.firstContext)));
      }
    }

    method GotIt(concept: string) returns (stage: Stage)
      modifies this
      ensures (Value(), stage) == Known(old(Value()), concept)
    {
      if concept !in concepts {
        return First;
      }
      var entry := concepts[concept];
      entry := entry.(gotIt := entry.gotIt + 1);
      concepts := concepts[concept := entry];
      stage := StageOf(Some(entry));
    }
  }

  // ---- whole runs ----

  datatype Op =
    | Use(concept: string, project: string, context: string, day: Day)
    | GotIt(concept: string)
    | Choose(mode: Mode)

  function After(m: Memory, op: Op): Memory {
    match op
    case Use(concept, project, context, day) => Encountered(m, concept, project, context, day).0
    case GotIt(concept) => Known(m, concept).0
    case Choose(mode) => m.(mode := mode)
  }

  /** What one kind of step comes to over a run from a new person's blank memory. */
  function Run(step: (Memory, Op) -> Memory, ops: seq<Op>): Memory {
    if ops == [] then BLANK else step(Run(step, ops[..|ops| - 1]), ops[|ops| - 1])
  }

  function State(ops: seq<Op>): Memory { Run(After, ops) }

  /** The stage told at step i, for an encounter. */
  function Told(ops: seq<Op>, i: nat): Stage
    requires i < |ops| && ops[i].Use?
  {
    StageToday(State(ops[..i]), ops[i].concept, ops[i].day)
  }

  predicate Tells(ops: seq<Op>, i: nat, concept: string, stage: Stage)
    requires i < |ops|
  {
    ops[i].Use? && ops[i].concept == concept && Told(ops, i) == stage
  }

  /** How often the concept was answered with the stage. */
  function Times(ops: seq<Op>, concept: string, stage: Stage): nat {
    if ops == [] then 0
    else Times(ops[..|ops| - 1], concept, stage) + if Tells(ops, |ops| - 1, concept, stage) then 1 else 0
  }

  /** How often the person said "Got it" after having met the concept. */
  function GotIts(ops: seq<Op>, concept: string): nat {
    if ops == [] then 0
    else
      GotIts(ops[..|ops| - 1], concept)
      + if ops[|ops| - 1] == GotIt(concept) && Met(ops[..|ops| - 1], concept) then 1 else 0
  }

  predicate Met(ops: seq<Op>, concept: string) {
    exists i :: 0 <= i < |ops| && ops[i].Use? && ops[i].concept == concept
  }

  function Offers(ops: seq<Op>, concept: string): nat { Times(ops, concept, First) + Times(ops, concept, Again) }

  /** The memory's counters are what the run did. */
  ghost predicate Counts(ops: seq<Op>, concept: string) {
    var e := EntryOf(State(ops), concept);
    && e.Some? == Met(ops, concept)
    && Offers(ops, concept) == (if e.Some? then e.value.offered else 0)
    && GotIts(ops, concept) == (if e.Some? then e.value.gotIt else 0)
  }

  lemma {:induction false} CountersCount(ops: seq<Op>, concept: string)
    ensures Counts(ops, concept)
  {
    if ops != [] {
      CountersCount(ops[..|ops| - 1], concept);
    }
  }

  /** Every idea is offered at most once as new and at most twice as met before, never as met
      before without having been offered as new. */
  lemma {:induction false} OffersAreFew(ops: seq<Op>, concept: string)
    ensures Times(ops, concept, First) <= 1 && Times(ops, concept, Again) <= 2
    ensures Times(ops, concept, Again) > 0 ==> Times(ops, concept, First) == 1
  {
    if ops != [] {
      OffersAreFew(ops[..|ops| - 1], concept);
      CountersCount(ops[..|ops| - 1], concept);
    }
  }

  /** An idea is familiar exactly when it was offered three times or the person said "Got it"
      twice after meeting it. */
  lemma FamiliarExactly(ops: seq<Op>, concept: string)
    ensures StageOf(EntryOf(State(ops), concept)) == Familiar <==>
            Offers(ops, concept) == 3 || GotIts(ops, concept) >= 2
  {
    CountersCount(ops, concept);
    OffersAreFew(ops, concept);
  }

  /** Once familiar, an idea is familiar at every later encounter, whatever the mode and the day. */
  lemma FamiliarForGood(ops: seq<Op>, i: nat, j: nat, concept: string)
    requires i <= j < |ops| && StageOf(EntryOf(State(ops[..i]), concept)) == Familiar
    requires ops[j].Use? && ops[j].concept == concept
    ensures Told(ops, j) == Familiar
  {
    StaysFamiliar(ops, i, j, concept);
  }

  lemma StaysFamiliar(ops: seq<Op>, i: nat, j: nat, concept: string)
    requires i <= j <= |ops| && StageOf(EntryOf(State(ops[..i]), concept)) == Familiar
    ensures StageOf(EntryOf(State(ops[..j]), concept)) == Familiar
  {
    forall m, op | StageOf(EntryOf(m, concept)) == Familiar
      ensures StageOf(EntryOf(After(m, op), concept)) == Familiar
    {
    }
    RunKeeps(After, m => StageOf(EntryOf(m, concept)) == Familiar, ops, i, j);
  }

  /** What every step keeps, a run keeps from where it holds. */
  lemma {:induction false} RunKeeps(step: (Memory, Op) -> Memory, kept: Memory -> bool, ops: seq<Op>, i: nat, j: nat)
    requires i <= j <= |ops| && kept(Run(step, ops[..i]))
    requires forall m, op :: kept(m) ==> kept(step(m, op))
    ensures kept(Run(step, ops[..j]))
  {
    if i < j {
      RunKeeps(step, kept, ops, i, j - 1);
      assert ops[..j][..j - 1] == ops[..j - 1];
    }
  }

  /** The idea's entry tells of its first encounter, at step i. */
  predicate FirstMet(ops: seq<Op>, i: nat, concept: string) {
    && i < |ops| && ops[i].Use? && ops[i].concept == concept
    && !Met(ops[..i], concept)
  }

  /** "You've seen this idea before" always quotes the person's very first encounter with it. */
  lemma AgainQuotesFirstMeeting(ops: seq<Op>, i: nat, j: nat)
    requires i <= j < |ops| && ops[j].Use? && FirstMet(ops, i, ops[j].concept)
    requires Told(ops, j) == Again
    ensures var use := ops[j];
            Encountered(State(ops[..j]), use.concept, use.project, use.context, use.day).1.met
            == Some((ops[i].project, Shortened(ops[i].context)))
  {
    CountersCount(ops[..i], ops[j].concept);
    if i < j { RemembersFirst(ops, i, j, ops[j].concept); }
  }

  predicate Recalls(m: Memory, concept: string, project: string, context: string) {
    var e := EntryOf(m, concept);
    e.Some? && e.value.firstProject == project && e.value.firstContext == context
  }

  lemma RemembersFirst(ops: seq<Op>, i: nat, j: nat, concept: string)
    requires i < j <= |ops| && FirstMet(ops, i, concept)
    ensures Recalls(State(ops[..j]), concept, ops[i].project, Shortened(ops[i].context))
  {
    CountersCount(ops[..i], concept);
    assert ops[..i + 1][..i] == ops[..i];
    forall m, op | Recalls(m, concept, ops[i].project, Shortened(ops[i].context))
      ensures Recalls(After(m, op), concept, ops[i].project, Shortened(ops[i].context))
    {
    }
    RunKeeps(After, m => Recalls(m, concept, ops[i].project, Shortened(ops[i].context)), ops, i + 1, j);
  }

  // ---- occasional tips ----

  predicate Offered(ops: seq<Op>, i: nat, day: Day)
    requires i < |ops|
  {
    ops[i].Use? && ops[i].day == day && Offer(Told(ops, i))
  }

  /** Some idea was offered on this day. */
  predicate OfferedOn(ops: seq<Op>, day: Day) { exists i :: 0 <= i < |ops| && Offered(ops, i, day) }

  /** Days do not run backwards. */
  predicate Forward(ops: seq<Op>) {
    forall i, j :: 0 <= i < j < |ops| && ops[i].Use? && ops[j].Use? ==> ops[i].day <= ops[j].day
  }

  lemma OfferedOnGrows(ops: seq<Op>, day: Day)
    requires ops != []
    ensures OfferedOn(ops, day) <==> OfferedOn(ops[..|ops| - 1], day) || Offered(ops, |ops| - 1, day)
  {
    var front := ops[..|ops| - 1];
    forall i | 0 <= i < |front| ensures Offered(front, i, day) <==> Offered(ops, i, day) {
      assert front[..i] == ops[..i];
    }
  }

  /** The memory knows the latest day with an offer. */
  lemma {:induction false} LastOfferIsLatest(ops: seq<Op>, day: Day)
    requires Forward(ops)
    requires forall i :: 0 <= i < |ops| && ops[i].Use? ==> ops[i].day <= day
    ensures OfferedOn(ops, day) <==> State(ops).lastOfferDay == Some(day)
  {
    if ops != [] {
      LastOfferIsLatest(ops[..|ops| - 1], day);
      OfferedOnGrows(ops, day);
    }
  }

  /** Occasional tips: an idea that is not yet familiar is offered exactly when no idea at all was
      offered earlier that day. */
  lemma OccasionalIsOncePerDay(ops: seq<Op>, j: nat)
    requires j < |ops| && ops[j].Use? && Forward(ops)
    requires State(ops[..j]).mode == Occasional
    requires StageOf(EntryOf(State(ops[..j]), ops[j].concept)) != Familiar
    ensures Offer(Told(ops, j)) <==> !OfferedOn(ops[..j], ops[j].day)
  {
    LastOfferIsLatest(ops[..j], ops[j].day);
  }

  // ---- the shelf ----

  predicate Tidy(e: Entry) {
    && |e.projects| <= 20 && |e.firstContext| <= 120 && e.offered <= 3
    && e.firstSeen <= e.lastSeen
    && (forall i, j :: 0 <= i < j < |e.projects| ==> e.projects[i] != e.projects[j])
  }

  /** Every entry stays small, lists no project twice, and keeps the project just used. */
  lemma {:induction false} EntriesStayTidy(ops: seq<Op>)
    requires Forward(ops)
    ensures forall c :: c in State(ops).concepts ==> Tidy(State(ops).concepts[c])
    ensures ops != [] && ops[|ops| - 1].Use? ==>
              var use := ops[|ops| - 1];
              use.concept in State(ops).concepts && use.project in State(ops).concepts[use.concept].projects
  {
    if ops != [] {
      var front, last := ops[..|ops| - 1], ops[|ops| - 1];
      EntriesStayTidy(front);
      if last.Use? {
        SeenInThePast(front, last.day, last.concept);
        ProjectKept(State(front), last);
      }
      StepStaysTidy(State(front), last);
    }
  }

  lemma StepStaysTidy(m: Memory, op: Op)
    requires forall c :: c in m.concepts ==> Tidy(m.concepts[c])
    requires op.Use? && op.concept in m.concepts ==> m.concepts[op.concept].firstSeen <= op.day
    ensures forall c :: c in After(m, op).concepts ==> Tidy(After(m, op).concepts[c])
  {
  }

  lemma ProjectKept(m: Memory, use: Op)
    requires use.Use?
    ensures use.concept in After(m, use).concepts && use.project in After(m, use).concepts[use.concept].projects
  {
    var entry := EntryOf(m, use.concept);
    var projects := if entry.Some? then entry.value.projects else [];
    var longer := projects + [use.project];
    assert longer[|longer| - 1] == use.project;
    assert LastTwenty(longer)[|LastTwenty(longer)| - 1] == use.project;
  }

  lemma {:induction false} SeenInThePast(ops: seq<Op>, day: Day, concept: string)
    requires forall i :: 0 <= i < |ops| && ops[i].Use? ==> ops[i].day <= day
    ensures var e := EntryOf(State(ops), concept); e.Some? ==> e.value.firstSeen <= day
  {
    if ops != [] { SeenInThePast(ops[..|ops| - 1], day, concept); }
  }

  // ---- what is told, and what is written down ----

  predicate NothingChosen(ops: seq<Op>, from: nat) { forall i :: from <= i < |ops| ==> !ops[i].Choose? }

  predicate ChosenAt(ops: seq<Op>, i: nat, mode: Mode) {
    i < |ops| && ops[i] == Choose(mode) && NothingChosen(ops, i + 1)
  }

  /** The mode last chosen, building while learning if none was. */
  ghost predicate InMode(ops: seq<Op>, mode: Mode) {
    (mode == Build && NothingChosen(ops, 0)) || exists i: nat :: ChosenAt(ops, i, mode)
  }

  lemma StaysInMode(ops: seq<Op>, mode: Mode)
    requires ops != [] && !ops[|ops| - 1].Choose? && InMode(ops[..|ops| - 1], mode)
    ensures InMode(ops, mode)
  {
    var front := ops[..|ops| - 1];
    if i: nat :| ChosenAt(front, i, mode) {
      assert ChosenAt(ops, i, mode);
    }
  }

  lemma {:induction false} ModeIsChosen(ops: seq<Op>)
    ensures InMode(ops, State(ops).mode)
  {
    if ops != [] {
      var front, last := ops[..|ops| - 1], ops[|ops| - 1];
      ModeIsChosen(front);
      if last.Choose? {
        assert ChosenAt(ops, |ops| - 1, last.mode);
      } else {
        StaysInMode(ops, State(front).mode);
      }
    }
  }

  lemma OneMode(ops: seq<Op>, mode: Mode)
    requires InMode(ops, mode)
    ensures State(ops).mode == mode
  {
    ModeIsChosen(ops);
    if i: nat, j: nat :| ChosenAt(ops, i, mode) && ChosenAt(ops, j, State(ops).mode) {
      assert i == j;
    }
  }

  /** What an encounter is answered, by what was offered and confirmed before it, the mode, and the
      day: nothing the memory holds beyond that matters. */
  lemma ToldExactly(ops: seq<Op>, j: nat, mode: Mode)
    requires j < |ops| && ops[j].Use? && Forward(ops) && InMode(ops[..j], mode)
    ensures var before, concept := ops[..j], ops[j].concept;
            Told(ops, j) ==
            if Offers(before, concept) == 3 || GotIts(before, concept) >= 2 then Familiar
            else if mode == Plain || (mode == Occasional && OfferedOn(before, ops[j].day)) then Off
            else if Offers(before, concept) >= 1 then Again
            else First
  {
    var before, concept := ops[..j], ops[j].concept;
    OneMode(before, mode);
    FamiliarExactly(before, concept);
    CountersCount(before, concept);
    LastOfferIsLatest(before, ops[j].day);
  }

  /** The last encounter with the idea is at step i. */
  predicate LastMet(ops: seq<Op>, i: nat, concept: string) {
    && i < |ops| && ops[i].Use? && ops[i].concept == concept
    && forall j :: i < j < |ops| && ops[j].Use? ==> ops[j].concept != concept
  }

  /** The text, cut behind 120 characters. */
  predicate Starts(context: string, shown: string) {
    shown <= context && |shown| <= 120 && (|shown| < 120 ==> shown == context)
  }

  /** An idea's entry tells where and when the person first met it, and when they last did. */
  lemma {:induction false} EntryTells(ops: seq<Op>, i: nat, j: nat, concept: string)
    requires FirstMet(ops, i, concept) && LastMet(ops, j, concept)
    ensures var e := EntryOf(State(ops), concept);
            && e.Some? && e.value.firstProject == ops[i].project && Starts(ops[i].context, e.value.firstContext)
            && e.value.firstSeen == ops[i].day && e.value.lastSeen == ops[j].day
  {
    var front, last := ops[..|ops| - 1], ops[|ops| - 1];
    if j == |ops| - 1 {
      CountersCount(front, concept);
      if i < j {
        RemembersFirst(ops, i, j, concept);
        SeenFirst(ops, i, j, concept);
      } else {
        assert ops[..i] == front;
      }
    } else {
      assert front[..i] == ops[..i];
      EntryTells(front, i, j, concept);
    }
  }

  lemma SeenFirst(ops: seq<Op>, i: nat, j: nat, concept: string)
    requires i < j <= |ops| && FirstMet(ops, i, concept)
    ensures EntryOf(State(ops[..j]), concept).Some? && EntryOf(State(ops[..j]), concept).value.firstSeen == ops[i].day
  {
    CountersCount(ops[..i], concept);
    assert ops[..i + 1][..i] == ops[..i];
    RunKeeps(After, m => EntryOf(m, concept).Some? && EntryOf(m, concept).value.firstSeen == ops[i].day, ops, i + 1, j);
  }

  function ProjectsOf(m: Memory, concept: string): seq<string> {
    if concept in m.concepts then m.concepts[concept].projects else []
  }

  /** An encounter puts its project behind the others, unless it is among them; of twenty others
      the oldest goes. Nothing else changes the list. */
  lemma ProjectsMean(m: Memory, op: Op, concept: string)
    requires |ProjectsOf(m, concept)| <= 20
    ensures var before, after := ProjectsOf(m, concept), ProjectsOf(After(m, op), concept);
            if op.Use? && op.concept == concept && op.project !in before then
              after == (if |before| == 20 then before[1..] else before) + [op.project]
            else after == before
  {
    if op.Use? && op.concept == concept && |ProjectsOf(m, concept)| == 20 {
      var before := ProjectsOf(m, concept);
      assert (before + [op.project])[1..] == before[1..] + [op.project];
    }
  }
}
