/** The client state store: one process-wide object with six nullable fields,
    written only through five setters. Each setter hands a partial object to
    the store's `set`, which overwrites exactly the keys it names and keeps the
    rest. The pure part (StoreState, Action, Apply) is the specification; the
    class Store is the shared mutable object the panels hold. */
module LearningStore {
  import opened Wrappers

  // ---------------------------------------------------------------------------
  // Entities
  // ---------------------------------------------------------------------------

  /** One curriculum unit; `id` distinguishes it within a syllabus. */
  datatype Module = Module(
    id: int,
    title: string,
    description: string,
    videoUrl: string,
    channel: Option<string>,
    duration: Option<string>)

  datatype Syllabus = Syllabus(topic: string, modules: seq<Module>, generatedAt: string)

  /** One timed line of a transcript; `start` and `duration` are in seconds. */
  datatype Segment = Segment(text: string, start: real, duration: real)

  /** A transcript as the get-transcript route returns it: the segments and
      their texts joined by single spaces. */
  datatype Transcript = Transcript(segments: seq<Segment>, fullText: string)

  // ---------------------------------------------------------------------------
  // The state and its transitions
  // ---------------------------------------------------------------------------

  datatype StoreState = StoreState(
    syllabus: Option<Syllabus>,
    selectedModule: Option<Module>,
    selectedModuleId: Option<int>,
    transcript: Option<Transcript>,
    videoTimestamp: Option<real>,
    error: Option<string>)

  /** The state the store is created with: every field null. */
  const Initial: StoreState := StoreState(None, None, None, None, None, None)

  /** One call of a setter, with its argument. */
  datatype Action =
    | SetSyllabus(syllabus: Syllabus)
    | SetSelectedModule(selected: Module)
    | SetTranscript(transcript: Transcript)
    | SetVideoTimestamp(timestamp: real)
    | SetError(error: Option<string>)

  datatype Field = SyllabusKey | SelectedModuleKey | SelectedModuleIdKey | TranscriptKey | VideoTimestampKey | ErrorKey

  /** The keys of the partial object each setter passes to `set`. */
  function Writes(a: Action): set<Field> {
    match a
    case SetSyllabus(_) => {SyllabusKey, ErrorKey}
    case SetSelectedModule(_) => {SelectedModuleKey, SelectedModuleIdKey, TranscriptKey}
    case SetTranscript(_) => {TranscriptKey}
    case SetVideoTimestamp(_) => {VideoTimestampKey}
    case SetError(_) => {ErrorKey}
  }

  /** Field `f` holds the same value in `s` and `t`. */
  predicate SameAt(s: StoreState, t: StoreState, f: Field) {
    match f
    case SyllabusKey => s.syllabus == t.syllabus
    case SelectedModuleKey => s.selectedModule == t.selectedModule
    case SelectedModuleIdKey => s.selectedModuleId == t.selectedModuleId
    case TranscriptKey => s.transcript == t.transcript
    case VideoTimestampKey => s.videoTimestamp == t.videoTimestamp
    case ErrorKey => s.error == t.error
  }

  /** The state after one setter call. Every action applies: no setter can fail. */
  function Apply(st: StoreState, a: Action): StoreState {
    match a
    case SetSyllabus(s) => st.(syllabus := Some(s), error := None)
    case SetSelectedModule(m) => st.(selectedModule := Some(m), selectedModuleId := Some(m.id), transcript := None)
    case SetTranscript(t) => st.(transcript := Some(t))
    case SetVideoTimestamp(ts) => st.(videoTimestamp := Some(ts))
    case SetError(e) => st.(error := e)
  }

  /** The state after a sequence of setter calls, in order. */
  function Run(st: StoreState, actions: seq<Action>): StoreState
    decreases |actions|
  {
    if actions == [] then st else Run(Apply(st, actions[0]), actions[1..])
  }

  /** Two setter calls in a row. */
  lemma RunPair(st: StoreState, a: Action, b: Action)
    ensures Run(st, [a, b]) == Apply(Apply(st, a), b)
  {
    assert [a, b][1..] == [b];
    assert [b][1..] == [];
    calc {
      Run(st, [a, b]);
      Run(Apply(st, a), [b]);
      Run(Apply(Apply(st, a), b), []);
    }
  }

  /** `selectedModuleId` mirrors `selectedModule`: both null, or the id is the
      selected module's id. */
  predicate IdMirrorsModule(st: StoreState) {
    st.selectedModuleId == if st.selectedModule.Some? then Some(st.selectedModule.value.id) else None
  }

  // ---------------------------------------------------------------------------
  // Properties
  // ---------------------------------------------------------------------------

  /** Each setter leaves every key it does not name as it was. */
  lemma ApplyFrame(st: StoreState, a: Action)
    ensures forall f :: f !in Writes(a) ==> SameAt(Apply(st, a), st, f)
  {
  }

  /** What each setter writes into the keys it names. */
  lemma ApplyWrites(st: StoreState, a: Action)
    ensures a.SetSyllabus? ==> Apply(st, a).syllabus == Some(a.syllabus) && Apply(st, a).error == None
    ensures a.SetSelectedModule? ==>
      && Apply(st, a).selectedModule == Some(a.selected)
      && Apply(st, a).selectedModuleId == Some(a.selected.id)
      && Apply(st, a).transcript == None
    ensures a.SetTranscript? ==> Apply(st, a).transcript == Some(a.transcript)
    ensures a.SetVideoTimestamp? ==> Apply(st, a).videoTimestamp == Some(a.timestamp)
    ensures a.SetError? ==> Apply(st, a).error == a.error
  {
  }

  /** Calling a setter twice with the same argument is the same as calling it once. */
  lemma ApplyIdempotent(st: StoreState, a: Action)
    ensures Apply(Apply(st, a), a) == Apply(st, a)
  {
  }

  /** Every setter keeps the id mirroring the selected module. */
  lemma ApplyKeepsMirror(st: StoreState, a: Action)
    requires IdMirrorsModule(st)
    ensures IdMirrorsModule(Apply(st, a))
  {
  }

  /** The mirror holds in every state reachable from the initial one. */
  lemma {:induction false} RunKeepsMirror(st: StoreState, actions: seq<Action>)
    requires IdMirrorsModule(st)
    ensures IdMirrorsModule(Run(st, actions))
    decreases |actions|
  {
    if actions != [] {
      ApplyKeepsMirror(st, actions[0]);
      RunKeepsMirror(Apply(st, actions[0]), actions[1..]);
    }
  }

  lemma ReachableMirror(actions: seq<Action>)
    ensures IdMirrorsModule(Run(Initial, actions))
  {
    RunKeepsMirror(Initial, actions);
  }

  /** Once a module is selected, the transcript is null until SetTranscript
      is called again, whatever else happens in between. */
  lemma {:induction false} SelectionClearsTranscript(st: StoreState, m: Module, rest: seq<Action>)
    requires forall i :: 0 <= i < |rest| ==> !rest[i].SetTranscript?
    ensures Run(st, [SetSelectedModule(m)] + rest).transcript == None
  {
    assert ([SetSelectedModule(m)] + rest)[1..] == rest;
    NoTranscriptWrite(Apply(st, SetSelectedModule(m)), rest);
  }

  lemma {:induction false} NoTranscriptWrite(st: StoreState, rest: seq<Action>)
    requires st.transcript == None
    requires forall i :: 0 <= i < |rest| ==> !rest[i].SetTranscript?
    ensures Run(st, rest).transcript == None
    decreases |rest|
  {
    if rest != [] {
      NoTranscriptWrite(Apply(st, rest[0]), rest[1..]);
    }
  }

  // ---------------------------------------------------------------------------
  // The shared store object
  // ---------------------------------------------------------------------------

  class Store {
    var syllabus: Option<Syllabus>
    var selectedModule: Option<Module>
    var selectedModuleId: Option<int>
    var transcript: Option<Transcript>
    var videoTimestamp: Option<real>
    var error: Option<string>

    function State(): StoreState
      reads this
    {
      StoreState(syllabus, selectedModule, selectedModuleId, transcript, videoTimestamp, error)
    }

    ghost predicate Valid()
      reads this
    {
      IdMirrorsModule(State())
    }

    constructor ()
      ensures State() == Initial && Valid()
    {
      syllabus, selectedModule, selectedModuleId := None, None, None;
      transcript, videoTimestamp, error := None, None, None;
    }

    /** Replaces the syllabus and clears the error. */
    method SetSyllabus(s: Syllabus)
      requires Valid()
      modifies this
      ensures Valid() && State() == Apply(old(State()), Action.SetSyllabus(s))
      ensures syllabus == Some(s) && error == None
      ensures selectedModule == old(selectedModule) && selectedModuleId == old(selectedModuleId)
      ensures transcript == old(transcript) && videoTimestamp == old(videoTimestamp)
    {
      syllabus, error := Some(s), None;
    }

    /** Selects a module, mirrors its id and drops the current transcript. */
    method SetSelectedModule(m: Module)
      requires Valid()
      modifies this
      ensures Valid() && State() == Apply(old(State()), Action.SetSelectedModule(m))
      ensures selectedModule == Some(m) && selectedModuleId == Some(m.id) && transcript == None
      ensures syllabus == old(syllabus) && videoTimestamp == old(videoTimestamp) && error == old(error)
    {
      selectedModule, selectedModuleId, transcript := Some(m), Some(m.id), None;
    }

    method SetTranscript(t: Transcript)
      requires Valid()
      modifies this
      ensures Valid() && State() == Apply(old(State()), Action.SetTranscript(t))
      ensures transcript == Some(t)
      ensures syllabus == old(syllabus) && selectedModule == old(selectedModule)
      ensures selectedModuleId == old(selectedModuleId)
      ensures videoTimestamp == old(videoTimestamp) && error == old(error)
    {
      transcript := Some(t);
    }

    /** Sets the playback position the video player seeks to. */
    method SetVideoTimestamp(ts: real)
      requires Valid()
      modifies this
      ensures Valid() && State() == Apply(old(State()), Action.SetVideoTimestamp(ts))
      ensures videoTimestamp == Some(ts)
      ensures syllabus == old(syllabus) && selectedModule == old(selectedModule)
      ensures selectedModuleId == old(selectedModuleId)
      ensures transcript == old(transcript) && error == old(error)
    {
      videoTimestamp := Some(ts);
    }

    /** Sets the error message, or clears it with None. */
    method SetError(e: Option<string>)
      requires Valid()
      modifies this
      ensures Valid() && State() == Apply(old(State()), Action.SetError(e))
      ensures error == e
      ensures syllabus == old(syllabus) && selectedModule == old(selectedModule)
      ensures selectedModuleId == old(selectedModuleId)
      ensures transcript == old(transcript) && videoTimestamp == old(videoTimestamp)
    {
      error := e;
    }
  }
}
