/**
 What the managed consumer sends, read off the spec file and the service's answers: every argument of every effect, over
 every run, and exactly when an attempt gets as far as a submission. Stated on the JSON members alone.
 */
module ConsumerArguments {
  import opened PyText
  import opened Sorting
  import opened Json
  import opened ManagedConsumer

  // ---------------------------------------------------------------- the arguments

  /** `spec[field]` is this text. */
  predicate Holds(spec: Mapping, field: string, text: string) {
    Get(spec, field) == Some(String(text))
  }

  /** `spec.get("request", {})` is this mapping. */
  predicate Requests(spec: Mapping, request: Mapping) {
    Get(spec, "request") == Some(Object(request)) || (Get(spec, "request").None? && request == [])
  }

  /** The definition, key and request of an effect are the file's. */
  predicate FromFile(file: Mapping, e: Event) {
    match e
    case Registered(definition, _, _) => Holds(file, "definition_id", definition)
    case Checkpointed(_) => true
    case Validated(definition, _, _) => Holds(file, "definition_id", definition)
    case Planned(definition, _, request, _) => Holds(file, "definition_id", definition) && Requests(file, request)
    case Reviewed(definition, _, _) => Holds(file, "definition_id", definition)
    case Submitted(definition, _, key, request, _) =>
      Holds(file, "definition_id", definition) && Holds(file, "idempotency_key", key) && Requests(file, request)
    case Announced(_) => true
  }

  /** The registered document is the spec's, or that of the definition file it names instead. */
  predicate RegistersFrom(file: Mapping, definitionFile: Option<Mapping>, document: Mapping) {
    || Get(file, "document") == Some(Object(document))
    || (&& Get(file, "document").None? && Get(file, "revision_id").None?
        && Get(file, "definition_file").Some? && Get(file, "definition_file").value.String?
        && definitionFile == Some(document))
  }

  /** Answers are recorded as the service gave them. */
  predicate FromWorld(w: World, e: Event) {
    match e
    case Registered(_, _, response) => response == w.registration
    case Checkpointed(_) => w.checkpointWrites
    case Validated(_, _, response) => response == w.validation
    case Planned(_, _, _, response) => response == w.planning
    case Reviewed(_, _, approved) => w.requireReview && approved == w.approves
    case Submitted(_, _, _, _, response) => response == w.submission
    case Announced(receipt) => w.submission == Answer(receipt)
  }

  lemma IntentIsTheFiles(spec: Mapping)
    requires IntentOf(spec).Some?
    ensures var i := IntentOf(spec).value;
            Holds(spec, "definition_id", i.definition) && Holds(spec, "idempotency_key", i.key) && Requests(spec, i.request)
  {
  }

  lemma DriveArguments(file: Mapping, intent: Intent, revision: string, w: World)
    requires Holds(file, "definition_id", intent.definition) && Holds(file, "idempotency_key", intent.key)
    requires Requests(file, intent.request)
    ensures forall e :: e in Drive(intent, revision, w) ==> FromFile(file, e) && FromWorld(w, e)
  {
    hide Confirms, HasPlan, Holds, Requests;
  }

  lemma LoadKeepsMembers(file: Mapping, definitionFile: Option<Mapping>, field: string)
    requires Load(file, definitionFile).Some? && field != "document"
    ensures Get(Load(file, definitionFile).value, field) == Get(file, field)
  {
    if definitionFile.Some? {
      GetPut(file, "document", Object(definitionFile.value), field);
    }
  }

  lemma LoadedDocument(file: Mapping, definitionFile: Option<Mapping>, document: Mapping)
    requires Load(file, definitionFile).Some?
    ensures Get(Load(file, definitionFile).value, "document") == Some(Object(document))
            <==> RegistersFrom(file, definitionFile, document)
  {
    if definitionFile.Some? {
      GetPut(file, "document", Object(definitionFile.value), "document");
    }
  }

  lemma LoadedHolds(file: Mapping, definitionFile: Option<Mapping>)
    requires Load(file, definitionFile).Some?
    ensures var spec := Load(file, definitionFile).value;
            && (forall text :: Holds(spec, "definition_id", text) <==> Holds(file, "definition_id", text))
            && (forall text :: Holds(spec, "idempotency_key", text) <==> Holds(file, "idempotency_key", text))
            && (forall request :: Requests(spec, request) <==> Requests(file, request))
  {
    hide Load;
    LoadKeepsMembers(file, definitionFile, "definition_id");
    LoadKeepsMembers(file, definitionFile, "idempotency_key");
    LoadKeepsMembers(file, definitionFile, "request");
  }

  /** Every effect of an attempt carries the file's and the service's values. */
  lemma AttemptArguments(file: Mapping, w: World)
    ensures forall e :: e in Attempt(file, w) ==> FromFile(file, e) && FromWorld(w, e)
    ensures forall e :: e in Attempt(file, w) && e.Registered? ==> RegistersFrom(file, w.definitionFile, e.document)
  {
    hide Load, IntentOf, PinOf, Drive, Holds, Requests, RegistersFrom;
    if Attempt(file, w) != [] {
      var spec := Load(file, w.definitionFile).value;
      var intent := IntentOf(spec).value;
      IntentIsTheFiles(spec);
      LoadedHolds(file, w.definitionFile);
      match PinOf(spec)
      case Pinned(revision) =>
        DriveArguments(file, intent, revision, w);
        DriveEvents(intent, revision, w);
      case Unpinned =>
        var document := Get(spec, "document").value.members;
        LoadedDocument(file, w.definitionFile, document);
        RegistrationArguments(file, spec, intent, document, w);
    }
  }

  lemma RegistrationArguments(file: Mapping, spec: Mapping, intent: Intent, document: Mapping, w: World)
    requires Holds(file, "definition_id", intent.definition) && Holds(file, "idempotency_key", intent.key)
    requires Requests(file, intent.request)
    ensures forall e :: e in Registration(spec, intent, document, w) ==> FromFile(file, e) && FromWorld(w, e)
    ensures forall e :: e in Registration(spec, intent, document, w) && e.Registered? ==> e.document == document
  {
    hide Drive, Holds, Requests, RegisteredRevision;
    if RegisteredRevision(w.registration).Some? {
      DriveArguments(file, intent, RegisteredRevision(w.registration).value, w);
      DriveEvents(intent, RegisteredRevision(w.registration).value, w);
    }
  }

  // ---------------------------------------------------------------- over every run

  /** A checkpoint leaves the rest of the spec alone. */
  lemma AttemptKeepsMembers(file: Mapping, w: World, crash: nat, field: string)
    requires field != "document" && field != "revision_id"
    ensures Get(Persisted(file, Cut(Attempt(file, w), crash)), field) == Get(file, field)
  {
    hide Attempt, Cut;
    var events := Cut(Attempt(file, w), crash);
    CheckpointsKeepMembers(file, w, field);
    CutMembers(Attempt(file, w), crash);
    PersistedKeepsMember(file, file, events, field);
  }

  lemma CutMembers(events: seq<Event>, crash: nat)
    ensures forall e :: e in Cut(events, crash) ==> e in events
  {
  }

  lemma CheckpointsKeepMembers(file: Mapping, w: World, field: string)
    requires field != "document" && field != "revision_id"
    ensures forall e :: e in Attempt(file, w) && e.Checkpointed? ==> Get(e.spec, field) == Get(file, field)
  {
    hide Load, IntentOf, PinOf, Drive, RegisteredRevision;
    if Attempt(file, w) != [] {
      var spec := Load(file, w.definitionFile).value;
      var intent := IntentOf(spec).value;
      LoadKeepsMembers(file, w.definitionFile, field);
      match PinOf(spec)
      case Pinned(revision) => DriveEvents(intent, revision, w);
      case Unpinned =>
        if RegisteredRevision(w.registration).Some? {
          var revision := RegisteredRevision(w.registration).value;
          DriveEvents(intent, revision, w);
          GetPut(spec, "revision_id", String(revision), field);
        }
    }
  }

  lemma {:induction false} PersistedKeepsMember(origin: Mapping, file: Mapping, events: seq<Event>, field: string)
    requires Get(file, field) == Get(origin, field)
    requires forall e :: e in events && e.Checkpointed? ==> Get(e.spec, field) == Get(origin, field)
    ensures Get(Persisted(file, events), field) == Get(origin, field)
    decreases events
  {
    if events != [] {
      assert events == [events[0]] + events[1..];
      PersistedKeepsMember(origin, if events[0].Checkpointed? then events[0].spec else file, events[1..], field);
    }
  }

  /** Over every run, whatever crashes and whatever the service answers, every effect carries the file's own values. */
  lemma {:induction false} RunArguments(file: Mapping, steps: seq<Step>)
    ensures forall e :: e in Trace(file, steps) ==> FromFile(file, e)
    decreases steps
  {
    hide Attempt, Cut, FromFile;
    if steps != [] {
      var w, crash := steps[0].world, steps[0].crash;
      var after := Persisted(file, Cut(Attempt(file, w), crash));
      AttemptArguments(file, w);
      CutMembers(Attempt(file, w), crash);
      AttemptKeepsMembers(file, w, crash, "definition_id");
      AttemptKeepsMembers(file, w, crash, "idempotency_key");
      AttemptKeepsMembers(file, w, crash, "request");
      RunArguments(after, steps[1..]);
      forall e | e in Trace(after, steps[1..]) ensures FromFile(file, e) {
        SameFile(file, after, e);
      }
    }
  }

  lemma SameFile(file: Mapping, after: Mapping, e: Event)
    requires Get(after, "definition_id") == Get(file, "definition_id")
    requires Get(after, "idempotency_key") == Get(file, "idempotency_key") && Get(after, "request") == Get(file, "request")
    ensures FromFile(after, e) <==> FromFile(file, e)
  {
  }

  /** And every registration carries the file's document, or that of a definition file read in one of the attempts. */
  lemma {:induction false} RunRegistersTheDocument(file: Mapping, steps: seq<Step>)
    ensures forall e :: e in Trace(file, steps) && e.Registered? ==>
              exists s :: s in steps && RegistersFrom(file, s.world.definitionFile, e.document)
    decreases steps
  {
    hide Attempt, Cut, RegistersFrom, PinOf;
    if steps != [] {
      var w, crash := steps[0].world, steps[0].crash;
      var events := Cut(Attempt(file, w), crash);
      AttemptArguments(file, w);
      CutMembers(Attempt(file, w), crash);
      assert steps == [steps[0]] + steps[1..];
      if PinOf(file) != Unpinned {
        PinnedRun(file, steps);
      } else {
        UnpinnedAttempt(file, w, crash);
        if CheckpointedAttempt(file, events) {
          PinnedRun(events[1].spec, steps[1..]);
        } else {
          RunRegistersTheDocument(file, steps[1..]);
        }
      }
    }
  }

  // ---------------------------------------------------------------- how far an attempt gets

  ghost predicate NonBlank(spec: Mapping, field: string) {
    exists text :: Holds(spec, field, text) && exists c :: c in text && !IsSpace(c)
  }

  /** The member is absent or an object. */
  predicate AbsentOrObject(spec: Mapping, field: string) {
    Get(spec, field).None? || Get(spec, field).value.Object?
  }

  ghost predicate WellFormedSpec(spec: Mapping) {
    && NonBlank(spec, "definition_id") && NonBlank(spec, "idempotency_key")
    && AbsentOrObject(spec, "request") && AbsentOrObject(spec, "business_context")
  }

  /** The service answered for this revision and found nothing wrong. */
  predicate AnswersYes(response: Response, revision: string) {
    && response.Answer? && Get(response.members, "revision_id") == Some(String(revision))
    && Get(response.members, "ok") == Some(Bool(true))
  }

  /** Validation, plan and any review went through for this revision. */
  predicate GoesThrough(w: World, revision: string) {
    && AnswersYes(w.validation, revision) && AnswersYes(w.planning, revision)
    && Get(w.planning.members, "plan").Some? && Get(w.planning.members, "plan").value.Object?
    && (w.requireReview ==> w.approves)
  }

  lemma IntentExactly(spec: Mapping)
    ensures IntentOf(spec).Some? <==> WellFormedSpec(spec)
  {
    hide IsSpace;
    TextExactly(spec, "definition_id");
    TextExactly(spec, "idempotency_key");
    hide RequiredText, NonBlank;
  }

  lemma TextExactly(spec: Mapping, field: string)
    ensures RequiredText(spec, field).Some? <==> NonBlank(spec, field)
  {
    hide IsSpace;
    if RequiredText(spec, field).Some? {
      assert Holds(spec, field, RequiredText(spec, field).value);
    }
  }

  ghost predicate Submits(events: seq<Event>) {
    exists e :: e in events && e.Submitted?
  }

  lemma SubmitsBehind(e: Event, rest: seq<Event>)
    ensures Submits([e] + rest) <==> e.Submitted? || Submits(rest)
    ensures !Submits([])
  {
    assert forall x :: x in [e] + rest <==> x == e || x in rest;
    if x :| x in rest && x.Submitted? {
      assert x in [e] + rest;
    }
    if e.Submitted? {
      assert e in [e] + rest;
    }
  }

  lemma SubmissionSubmits(intent: Intent, revision: string, w: World)
    ensures Submits(Submission(intent, revision, w))
  {
    assert Submission(intent, revision, w)[0] in Submission(intent, revision, w);
  }

  lemma DriveSubmitsExactly(intent: Intent, revision: string, w: World)
    ensures Submits(Drive(intent, revision, w)) <==> GoesThrough(w, revision)
    ensures forall e :: e in Drive(intent, revision, w) && e.Submitted? ==> e.revision == revision
  {
    hide Submits, Submission;
    SubmissionSubmits(intent, revision, w);
    SubmitsBehind(Reviewed(intent.definition, revision, w.approves), if w.approves then Submission(intent, revision, w) else []);
    var planned := Confirms(w.planning, revision) && HasPlan(w.planning);
    SubmitsBehind(Planned(intent.definition, revision, intent.request, w.planning),
                  if planned then AfterPlan(intent, revision, w) else []);
    SubmitsBehind(Validated(intent.definition, revision, w.validation),
                  if Confirms(w.validation, revision) then AfterValidation(intent, revision, w) else []);
    DriveEvents(intent, revision, w);
  }

  /** The attempt has this revision to submit: the file names it, or it registers the document and checkpoints the answer. */
  ghost predicate Obtains(file: Mapping, w: World, revision: string) {
    || (Holds(file, "revision_id", revision) && exists c :: c in revision && !IsSpace(c))
    || (&& (Get(file, "revision_id").None? || Get(file, "revision_id") == Some(Null))
        && (|| (Get(file, "document").Some? && Get(file, "document").value.Object?)
            || (w.definitionFile.Some? && RegistersFrom(file, w.definitionFile, w.definitionFile.value)))
        && w.registration.Answer? && Get(w.registration.members, "revision_id") == Some(String(revision)) && revision != ""
        && w.checkpointWrites)
  }

  /**
   An attempt submits a revision if and only if the spec is well formed, the revision is the file's or freshly registered
   and checkpointed, and validation, planning and any review go through for it.
   */
  lemma SubmitsExactly(file: Mapping, w: World, revision: string)
    ensures SubmitsRevision(Attempt(file, w), revision)
            <==> WellFormedSpec(file) && Obtains(file, w, revision) && GoesThrough(w, revision)
  {
    var loaded := Load(file, w.definitionFile);
    IntentExactly(file);
    LoadFailsExactly(file, w, revision);
    hide Attempt, GoesThrough, WellFormedSpec, IntentOf, Obtains;
    if loaded.None? {
      NothingLoaded(file, w);
    } else {
      LoadKeepsIntent(file, w.definitionFile);
      LoadedAttempt(file, loaded.value, w, revision);
      ObtainsLoaded(file, loaded.value, w, revision);
    }
  }

  lemma NothingLoaded(file: Mapping, w: World)
    requires Load(file, w.definitionFile).None?
    ensures Attempt(file, w) == []
  {
  }

  lemma LoadFailsExactly(file: Mapping, w: World, revision: string)
    ensures Load(file, w.definitionFile).None? ==> !Obtains(file, w, revision)
  {
  }

  ghost predicate SubmitsRevision(events: seq<Event>, revision: string) {
    exists e :: e in events && e.Submitted? && e.revision == revision
  }

  lemma DriveSubmitsRevision(before: seq<Event>, intent: Intent, driven: string, w: World, revision: string)
    requires forall e :: e in before ==> !e.Submitted?
    ensures SubmitsRevision(before + Drive(intent, driven, w), revision) <==> GoesThrough(w, revision) && driven == revision
  {
    hide Drive, GoesThrough;
    DriveSubmitsExactly(intent, driven, w);
    assert forall e :: e in before + Drive(intent, driven, w) <==> e in before || e in Drive(intent, driven, w);
    if GoesThrough(w, revision) && driven == revision {
      var e :| e in Drive(intent, driven, w) && e.Submitted?;
      assert e in before + Drive(intent, driven, w);
    }
  }

  /** Given the loaded spec, the attempt submits what the pin or the registration yields. */
  lemma LoadedAttempt(file: Mapping, spec: Mapping, w: World, revision: string)
    requires Load(file, w.definitionFile) == Some(spec)
    ensures SubmitsRevision(Attempt(file, w), revision)
            <==> IntentOf(spec).Some? && GoesThrough(w, revision)
                 && (|| PinOf(spec) == Pinned(revision)
                     || (PinOf(spec) == Unpinned && Get(spec, "document").Some? && Get(spec, "document").value.Object?
                         && RegisteredRevision(w.registration) == Some(revision) && w.checkpointWrites))
  {
    hide Load, IntentOf, PinOf, Drive, GoesThrough, RegisteredRevision;
    if IntentOf(spec).Some? {
      var intent := IntentOf(spec).value;
      var answered := RegisteredRevision(w.registration);
      match PinOf(spec)
      case Pinned(pinned) =>
        DriveSubmitsRevision([], intent, pinned, w, revision);
        assert [] + Drive(intent, pinned, w) == Drive(intent, pinned, w);
      case Refused =>
      case Unpinned =>
        if answered.Some? && w.checkpointWrites && Get(spec, "document").Some? && Get(spec, "document").value.Object? {
          var before := [Registered(intent.definition, Get(spec, "document").value.members, w.registration),
                         Checkpointed(Put(spec, "revision_id", String(answered.value)))];
          DriveSubmitsRevision(before, intent, answered.value, w, revision);
          assert Attempt(file, w) == before + Drive(intent, answered.value, w);
        }
    }
  }

  lemma ObtainsLoaded(file: Mapping, spec: Mapping, w: World, revision: string)
    requires Load(file, w.definitionFile) == Some(spec)
    ensures Obtains(file, w, revision)
            <==> || PinOf(spec) == Pinned(revision)
                 || (PinOf(spec) == Unpinned && Get(spec, "document").Some? && Get(spec, "document").value.Object?
                     && RegisteredRevision(w.registration) == Some(revision) && w.checkpointWrites)
  {
    hide IsSpace;
    LoadKeepsMembers(file, w.definitionFile, "revision_id");
    if w.definitionFile.Some? {
      LoadedDocument(file, w.definitionFile, w.definitionFile.value);
    }
  }

  /** A checkpoint stands behind a registration and holds the revision its answer named. */
  ghost predicate AnswerCheckpointed(events: seq<Event>, w: World) {
    && |events| >= 2 && events[0].Registered? && events[1].Checkpointed? && w.registration.Answer?
    && exists revision :: revision != "" && Get(w.registration.members, "revision_id") == Some(String(revision))
                          && Holds(events[1].spec, "revision_id", revision)
  }

  lemma CheckpointIsTheAnswer(file: Mapping, w: World)
    ensures forall e :: e in Attempt(file, w) && e.Checkpointed? ==>
              AnswerCheckpointed(Attempt(file, w), w) && e == Attempt(file, w)[1]
  {
    hide Load, IntentOf, PinOf, Drive, AnswerCheckpointed;
    if Attempt(file, w) != [] {
      var spec := Load(file, w.definitionFile).value;
      var intent := IntentOf(spec).value;
      match PinOf(spec)
      case Pinned(revision) => DriveEvents(intent, revision, w);
      case Unpinned =>
        RegistrationCheckpoints(spec, intent, Get(spec, "document").value.members, w);
    }
  }

  lemma RegistrationCheckpoints(spec: Mapping, intent: Intent, document: Mapping, w: World)
    ensures var events := Registration(spec, intent, document, w);
            forall e :: e in events && e.Checkpointed? ==> AnswerCheckpointed(events, w) && e == events[1]
  {
    hide Drive;
    if RegisteredRevision(w.registration).Some? && w.checkpointWrites {
      var revision := RegisteredRevision(w.registration).value;
      DriveEvents(intent, revision, w);
      GetPut(spec, "revision_id", String(revision), "revision_id");
    }
  }
}
