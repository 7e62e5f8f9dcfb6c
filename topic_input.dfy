/** The topic form: submitting a non-blank topic asks /api/generate-syllabus
    for a syllabus and puts it, or the failure's message, into the shared
    store. The request is not executed: `handleSubmit` is split at its `await`
    into BeginSubmit (before the request) and FinishSubmit (after it, with
    the outcome as a parameter). */
module TopicInput {
  import opened Wrappers
  import opened Http
  import opened Text
  import opened LearningStore

  const Rejection: string := "Failed to generate syllabus"

  /** The store writes a submit makes after its request: the syllabus on
      success, otherwise the failure's message as the error. */
  function Outcome(outcome: Fetch<Syllabus>): Action {
    match outcome
    case Received(data) => SetSyllabus(data)
    case Rejected => SetError(Some(Rejection))
    case FetchThrew(reason) => SetError(Some(reason))
  }

  /** All the store writes of a submit that sends its request, in order: the
      error is cleared first. */
  function SubmitActions(outcome: Fetch<Syllabus>): seq<Action> {
    [SetError(None), Outcome(outcome)]
  }

  /** What a submit leaves in the store: a successful one installs the syllabus
      with no error; a failed one leaves the syllabus as it was and holds the
      message as the error. Selection, transcript and timestamp are never touched. */
  lemma SubmitEffect(st: StoreState, outcome: Fetch<Syllabus>)
    ensures var after := Run(st, SubmitActions(outcome));
      && (outcome.Received? ==> after.syllabus == Some(outcome.data) && after.error == None)
      && (outcome.Rejected? ==> after.syllabus == st.syllabus && after.error == Some(Rejection))
      && (outcome.FetchThrew? ==> after.syllabus == st.syllabus && after.error == Some(outcome.reason))
      && after.selectedModule == st.selectedModule && after.selectedModuleId == st.selectedModuleId
      && after.transcript == st.transcript && after.videoTimestamp == st.videoTimestamp
  {
    RunPair(st, SetError(None), Outcome(outcome));
  }

  class Form {
    const store: Store
    var topic: string
    var isLoading: bool

    constructor (store: Store)
      ensures this.store == store && topic == "" && !isLoading
    {
      this.store := store;
      topic, isLoading := "", false;
    }

    /** `handleSubmit` up to the request: nothing for a blank topic; otherwise
        loading starts, the store error is cleared, and the untrimmed topic is
        sent. */
    method BeginSubmit() returns (body: Option<string>)
      requires store.Valid()
      modifies this, store
      ensures store.Valid() && topic == old(topic)
      ensures IsBlank(topic) ==> body.None? && isLoading == old(isLoading) && store.State() == old(store.State())
      ensures !IsBlank(topic) ==>
        body == Some(topic) && isLoading && store.State() == Apply(old(store.State()), SetError(None))
    {
      if Trim(topic) == "" {
        return None;
      }
      isLoading := true;
      store.SetError(None);
      body := Some(topic);
    }

    /** `handleSubmit` after the request: one store write for the outcome, and
        loading ends on every path. */
    method FinishSubmit(outcome: Fetch<Syllabus>)
      requires store.Valid()
      modifies this, store
      ensures store.Valid() && topic == old(topic) && !isLoading
      ensures store.State() == Apply(old(store.State()), Outcome(outcome))
    {
      match outcome {
        case Received(data) =>
          store.SetSyllabus(data);
        case Rejected =>
          store.SetError(Some(Rejection));
        case FetchThrew(reason) =>
          store.SetError(Some(reason));
      }
      isLoading := false;
    }

    /** The whole of `handleSubmit`, with the request's outcome given. */
    method HandleSubmit(outcome: Fetch<Syllabus>) returns (body: Option<string>)
      requires store.Valid()
      modifies this, store
      ensures store.Valid() && topic == old(topic)
      ensures IsBlank(topic) ==> body.None? && isLoading == old(isLoading) && store.State() == old(store.State())
      ensures !IsBlank(topic) ==>
        body == Some(topic) && !isLoading && store.State() == Run(old(store.State()), SubmitActions(outcome))
    {
      body := BeginSubmit();
      if body.Some? {
        FinishSubmit(outcome);
        RunPair(old(store.State()), SetError(None), Outcome(outcome));
      }
    }
  }
}
