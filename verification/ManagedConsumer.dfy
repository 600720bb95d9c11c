/**
 The managed consumer: register once, checkpoint the revision, then validate, plan, review and
 submit it. A run is any number of attempts over one persisted spec file, each against a server
 that answers as it likes and each ended by a crash at any point.
 */
module ManagedConsumer {
  import opened PyText
  import opened Sorting
  import opened Json

  /** A JSON object in key order, as the checkpoint is written; so equal objects are equal lists. */
  type Mapping = seq<Member>

  /** What a managed command came to: a transport error, or a JSON object. */
  datatype Response = Failed | Answer(members: Mapping)

  /** Everything outside the consumer that one attempt meets. */
  datatype World = World(
    definitionFile: Option<Mapping>,
    requireReview: bool,
    registration: Response,
    validation: Response,
    planning: Response,
    submission: Response,
    approves: bool,
    checkpointWrites: bool)

  /** The effects an attempt has outside its own process, in the order it performs them. */
  datatype Event =
    | Registered(definition: string, document: Mapping, response: Response)
    | Checkpointed(spec: Mapping)
    | Validated(definition: string, revision: string, response: Response)
    | Planned(definition: string, revision: string, request: Mapping, response: Response)
    | Reviewed(definition: string, revision: string, approved: bool)
    | Submitted(definition: string, revision: string, key: string, request: Mapping, response: Response)
    | Announced(receipt: Mapping)

  /** `not value.strip()`: only Python whitespace. */
  predicate Blank(s: string) {
    forall c :: c in s ==> IsSpace(c)
  }

  predicate IsSpace(c: char) {
    var n := c as int;
    || 0x09 <= n <= 0x0d || 0x1c <= n <= 0x20 || n == 0x85 || n == 0xa0 || n == 0x1680
    || 0x2000 <= n <= 0x200a || n == 0x2028 || n == 0x2029 || n == 0x202f || n == 0x205f || n == 0x3000
  }

  function RequiredText(spec: Mapping, field: string): Option<string> {
    match Get(spec, field)
    case Some(String(s)) => if Blank(s) then None else Some(s)
    case _ => None
  }

  /** `spec.get(field, {})`, which must be an object. */
  function OptionalObject(spec: Mapping, field: string): Option<Mapping> {
    match Get(spec, field)
    case None => Some([])
    case Some(Object(members)) => Some(members)
    case Some(_) => None
  }

  /** What a spec fixes about every submission made for it, apart from the revision. */
  datatype Intent = Intent(definition: string, key: string, request: Mapping)

  function IntentOf(spec: Mapping): Option<Intent> {
    match (RequiredText(spec, "definition_id"), RequiredText(spec, "idempotency_key"),
           OptionalObject(spec, "request"), OptionalObject(spec, "business_context"))
    case (Some(definition), Some(key), Some(request), Some(_)) => Some(Intent(definition, key, request))
    case _ => None
  }

  /** How the spec names its revision: not at all, a usable pin, or a value that is refused. */
  datatype Pin = Unpinned | Pinned(revision: string) | Refused

  function PinOf(spec: Mapping): Pin {
    match Get(spec, "revision_id")
    case None => Unpinned
    case Some(Null) => Unpinned
    case Some(String(s)) => if Blank(s) then Refused else Pinned(s)
    case Some(_) => Refused
  }

  /** `main`'s loading: the definition file fills in a missing document. */
  function Load(file: Mapping, definitionFile: Option<Mapping>): Option<Mapping> {
    match (Get(file, "revision_id"), Get(file, "document"), Get(file, "definition_file"))
    case (None, None, Some(String(_))) =>
      (match definitionFile
       case None => None
       case Some(document) => Some(Put(file, "document", Object(document))))
    case _ => Some(file)
  }

  predicate Confirms(response: Response, revision: string) {
    response.Answer?
    && Get(response.members, "revision_id") == Some(String(revision))
    && Get(response.members, "ok") == Some(Bool(true))
  }

  predicate HasPlan(response: Response) {
    response.Answer? && match Get(response.members, "plan") case Some(Object(_)) => true case _ => false
  }

  function RegisteredRevision(response: Response): Option<string> {
    if response.Failed? then None
    else
      match Get(response.members, "revision_id")
      case Some(String(s)) => if s == "" then None else Some(s)
      case _ => None
  }

  /** From a pinned revision on: validate, plan, review, submit, announce. */
  function Drive(intent: Intent, revision: string, w: World): seq<Event> {
    [Validated(intent.definition, revision, w.validation)] +
    if Confirms(w.validation, revision) then AfterValidation(intent, revision, w) else []
  }

  function AfterValidation(intent: Intent, revision: string, w: World): seq<Event> {
    [Planned(intent.definition, revision, intent.request, w.planning)] +
    if Confirms(w.planning, revision) && HasPlan(w.planning) then AfterPlan(intent, revision, w) else []
  }

  function AfterPlan(intent: Intent, revision: string, w: World): seq<Event> {
    if !w.requireReview then Submission(intent, revision, w)
    else
      [Reviewed(intent.definition, revision, w.approves)] +
      if w.approves then Submission(intent, revision, w) else []
  }

  function Submission(intent: Intent, revision: string, w: World): seq<Event> {
    [Submitted(intent.definition, revision, intent.key, intent.request, w.submission)] +
    if w.submission.Answer? then [Announced(w.submission.members)] else []
  }

  /** Without a revision: register, checkpoint what the service returned, then drive it. */
  function Registration(spec: Mapping, intent: Intent, document: Mapping, w: World): seq<Event> {
    [Registered(intent.definition, document, w.registration)] + AfterRegistration(spec, intent, w)
  }

  function AfterRegistration(spec: Mapping, intent: Intent, w: World): seq<Event> {
    match RegisteredRevision(w.registration)
    case Some(revision) =>
      if w.checkpointWrites then
        [Checkpointed(Put(spec, "revision_id", String(revision)))] + Drive(intent, revision, w)
      else []
    case None => []
  }

  /** The effects of one uninterrupted attempt on the file. */
  function Attempt(file: Mapping, w: World): seq<Event> {
    match Load(file, w.definitionFile)
    case None => []
    case Some(spec) =>
      match (IntentOf(spec), PinOf(spec), Get(spec, "document"))
      case (Some(intent), Pinned(revision), _) => Drive(intent, revision, w)
      case (Some(intent), Unpinned, Some(Object(document))) => Registration(spec, intent, document, w)
      case _ => []
  }

  /** A crash after `crash` effects. */
  function Cut(events: seq<Event>, crash: nat): seq<Event> {
    if crash < |events| then events[..crash] else events
  }

  /** The file after some effects: the last checkpoint, if any. */
  function Persisted(file: Mapping, events: seq<Event>): Mapping
    decreases events
  {
    if events == [] then file
    else Persisted(if events[0].Checkpointed? then events[0].spec else file, events[1..])
  }

  lemma NothingCut(file: Mapping, events: seq<Event>)
    ensures Cut(events, 0) == [] && Persisted(file, []) == file
    ensures forall crash :: Cut([], crash) == []
  {
  }

  lemma CutFirst(e: Event, rest: seq<Event>, crash: nat)
    requires crash > 0
    ensures Cut([e] + rest, crash) == [e] + Cut(rest, crash - 1)
  {
  }

  lemma PersistedFirst(file: Mapping, e: Event, rest: seq<Event>)
    ensures Persisted(file, [e] + rest) == Persisted(if e.Checkpointed? then e.spec else file, rest)
  {
  }

  lemma {:induction false} PersistedUnchanged(file: Mapping, events: seq<Event>)
    requires forall e :: e in events ==> !e.Checkpointed?
    ensures Persisted(file, events) == file
    decreases events
  {
    if events != [] {
      assert events[0] in events;
      PersistedUnchanged(file, events[1..]);
    }
  }

  /** The consumer process with its file, and the record of what has left it. */
  class Consumer {
    var file: Mapping
    var trace: seq<Event>

    constructor (spec: Mapping)
      ensures file == spec && trace == []
    {
      file := spec;
      trace := [];
    }

    /** Performs one effect. */
    method Emit(e: Event)
      modifies this
      ensures trace == old(trace) + [e]
      ensures file == if e.Checkpointed? then e.spec else old(file)
    {
      trace := trace + [e];
      if e.Checkpointed? {
        file := e.spec;
      }
    }

    /** The submission, dying once `crash` effects are out. */
    method Submit(intent: Intent, revision: string, w: World, crash: nat)
      modifies this
      ensures trace == old(trace) + Cut(Submission(intent, revision, w), crash)
      ensures file == old(file)
    {
      if crash == 0 { return; }
      Emit(Submitted(intent.definition, revision, intent.key, intent.request, w.submission));
      if crash > 1 && w.submission.Answer? {
        Emit(Announced(w.submission.members));
      }
    }

    method ReviewPlan(intent: Intent, revision: string, w: World, crash: nat)
      modifies this
      ensures trace == old(trace) + Cut(AfterPlan(intent, revision, w), crash)
      ensures file == old(file)
    {
      hide Submission, Cut;
      NothingCut(file, AfterPlan(intent, revision, w));
      if !w.requireReview {
        Submit(intent, revision, w, crash);
        return;
      }
      if crash == 0 { return; }
      var reviewed := Reviewed(intent.definition, revision, w.approves);
      Emit(reviewed);
      CutFirst(reviewed, if w.approves then Submission(intent, revision, w) else [], crash);
      if w.approves {
        Submit(intent, revision, w, crash - 1);
      }
    }

    method Plan(intent: Intent, revision: string, w: World, crash: nat)
      modifies this
      ensures trace == old(trace) + Cut(AfterValidation(intent, revision, w), crash)
      ensures file == old(file)
    {
      hide AfterPlan, Confirms, HasPlan;
      if crash == 0 { return; }
      var planned := Planned(intent.definition, revision, intent.request, w.planning);
      var ready := Confirms(w.planning, revision) && HasPlan(w.planning);
      Emit(planned);
      CutFirst(planned, if ready then AfterPlan(intent, revision, w) else [], crash);
      if ready {
        ReviewPlan(intent, revision, w, crash - 1);
      }
    }

    /** Everything `consume_generated_spec` does once it holds a revision. */
    method DriveRevision(intent: Intent, revision: string, w: World, crash: nat)
      modifies this
      ensures trace == old(trace) + Cut(Drive(intent, revision, w), crash)
      ensures file == old(file)
    {
      hide AfterValidation, Confirms;
      if crash == 0 { return; }
      var validated := Validated(intent.definition, revision, w.validation);
      var confirmed := Confirms(w.validation, revision);
      Emit(validated);
      CutFirst(validated, if confirmed then AfterValidation(intent, revision, w) else [], crash);
      if confirmed {
        Plan(intent, revision, w, crash - 1);
      }
    }

    /** Registration and checkpoint, for a spec that has no revision yet. */
    method RegisterAndDrive(spec: Mapping, intent: Intent, document: Mapping, w: World, crash: nat)
      modifies this
      ensures trace == old(trace) + Cut(Registration(spec, intent, document, w), crash)
      ensures file == Persisted(old(file), Cut(Registration(spec, intent, document, w), crash))
    {
      hide Drive, Cut, RegisteredRevision, Persisted;
      if crash == 0 {
        NothingCut(file, Registration(spec, intent, document, w));
        return;
      }
      var registered := Registered(intent.definition, document, w.registration);
      Emit(registered);
      CutFirst(registered, AfterRegistration(spec, intent, w), crash);
      PersistedFirst(file, registered, Cut(AfterRegistration(spec, intent, w), crash - 1));
      var revision := RegisteredRevision(w.registration);
      if crash == 1 || revision.None? || !w.checkpointWrites {
        NothingCut(file, AfterRegistration(spec, intent, w));
        assert [registered] + [] == [registered];
        return;
      }
      var checkpointed := Checkpointed(Put(spec, "revision_id", String(revision.value)));
      PersistedFirst(file, checkpointed, Cut(Drive(intent, revision.value, w), crash - 2));
      Emit(checkpointed);
      CutFirst(checkpointed, Drive(intent, revision.value, w), crash - 1);
      DriveRevision(intent, revision.value, w, crash - 2);
      DriveKeepsFile(file, intent, revision.value, w, crash - 2);
    }

    /** One attempt of `main`, dying once `crash` effects are out. */
    method Consume(w: World, crash: nat)
      modifies this
      ensures trace == old(trace) + Cut(Attempt(old(file), w), crash)
      ensures file == Persisted(old(file), Cut(Attempt(old(file), w), crash))
    {
      hide Drive, Load, IntentOf, PinOf, Registration;
      var loaded := Load(file, w.definitionFile);
      if loaded.None? { return; }
      var intent := IntentOf(loaded.value);
      var pin := PinOf(loaded.value);
      if intent.None? || pin.Refused? { return; }
      if pin.Pinned? {
        DriveRevision(intent.value, pin.revision, w, crash);
        DriveKeepsFile(file, intent.value, pin.revision, w, crash);
        return;
      }
      var document := Get(loaded.value, "document");
      if document.Some? && document.value.Object? {
        RegisterAndDrive(loaded.value, intent.value, document.value.members, w, crash);
      }
    }
  }

  lemma DriveEvents(intent: Intent, revision: string, w: World)
    ensures forall e :: e in Drive(intent, revision, w) ==> !e.Checkpointed? && !e.Registered?
    ensures forall e :: e in Drive(intent, revision, w) && e.Submitted? ==>
              e == Submitted(intent.definition, revision, intent.key, intent.request, w.submission)
  {
    hide Confirms, HasPlan;
  }

  lemma DriveKeepsFile(file: Mapping, intent: Intent, revision: string, w: World, crash: nat)
    ensures Persisted(file, Cut(Drive(intent, revision, w), crash)) == file
  {
    DriveEvents(intent, revision, w);
    PersistedUnchanged(file, Cut(Drive(intent, revision, w), crash));
  }

  // ---------------------------------------------------------------- one attempt

  /** Loading adds at most a document, so the intent and the pin are the file's. */
  lemma LoadKeepsIntent(file: Mapping, definitionFile: Option<Mapping>)
    requires Load(file, definitionFile).Some?
    ensures var spec := Load(file, definitionFile).value;
            IntentOf(spec) == IntentOf(file) && PinOf(spec) == PinOf(file)
            && Get(spec, "revision_id") == Get(file, "revision_id")
  {
    var spec := Load(file, definitionFile).value;
    if spec != file {
      PutKeepsIntent(file, "document", Object(definitionFile.value));
      GetPut(file, "document", Object(definitionFile.value), "revision_id");
    }
  }

  lemma PutKeepsIntent(spec: Mapping, key: string, value: Json)
    requires key == "document" || key == "revision_id"
    ensures IntentOf(Put(spec, key, value)) == IntentOf(spec)
  {
    hide Blank;
    GetPut(spec, key, value, "definition_id");
    GetPut(spec, key, value, "idempotency_key");
    GetPut(spec, key, value, "request");
    GetPut(spec, key, value, "business_context");
  }

  /** Everything that has to stand in front of a submission, in the same attempt and for its revision. */
  ghost predicate Prepared(events: seq<Event>, j: nat, requireReview: bool)
    requires j < |events| && events[j].Submitted?
  {
    exists v, p :: PreparedBy(events, v, p, j, requireReview)
  }

  ghost predicate PreparedBy(events: seq<Event>, v: int, p: int, j: nat, requireReview: bool)
    requires j < |events| && events[j].Submitted?
  {
    var definition, revision := events[j].definition, events[j].revision;
    && 0 <= v < p < j
    && events[v].Validated? && events[v].definition == definition && events[v].revision == revision
    && Confirms(events[v].response, revision)
    && events[p].Planned? && events[p].definition == definition && events[p].revision == revision
    && events[p].request == events[j].request
    && Confirms(events[p].response, revision) && HasPlan(events[p].response)
    && (requireReview ==> p + 1 < j && events[p + 1] == Reviewed(definition, revision, true))
  }

  lemma DrivePrepares(intent: Intent, revision: string, w: World, before: seq<Event>)
    ensures var events := before + Drive(intent, revision, w);
            forall j :: |before| <= j < |events| && events[j].Submitted? ==> Prepared(events, j, w.requireReview)
  {
    var drive := Drive(intent, revision, w);
    var events := before + drive;
    forall j | |before| <= j < |events| && events[j].Submitted? ensures Prepared(events, j, w.requireReview) {
      assert events[j] == drive[j - |before|];
      var v, p := |before|, |before| + 1;
      assert events[v] == drive[0] == Validated(intent.definition, revision, w.validation);
      assert Confirms(w.validation, revision);
      assert events[p] == drive[1] == AfterValidation(intent, revision, w)[0];
      assert w.requireReview ==> events[p + 1] == drive[2] == AfterPlan(intent, revision, w)[0];
      assert j == if w.requireReview then p + 2 else p + 1;
      assert PreparedBy(events, v, p, j, w.requireReview);
    }
  }

  /** No submission without validation, plan and any configured review behind it, whenever the attempt dies. */
  lemma SubmissionsArePrepared(file: Mapping, w: World, crash: nat)
    ensures var events := Cut(Attempt(file, w), crash);
            forall j :: 0 <= j < |events| && events[j].Submitted? ==> Prepared(events, j, w.requireReview)
  {
    var all := Attempt(file, w);
    hide Attempt, Prepared;
    AttemptPrepares(file, w);
    var events := Cut(all, crash);
    assert events == all[..|events|];
    forall j | 0 <= j < |events| && events[j].Submitted? ensures Prepared(events, j, w.requireReview) {
      PreparedPrefix(all, |events|, j, w.requireReview);
    }
  }

  lemma PreparedPrefix(all: seq<Event>, k: nat, j: nat, requireReview: bool)
    requires j < k <= |all| && all[j].Submitted? && Prepared(all, j, requireReview)
    ensures Prepared(all[..k], j, requireReview)
  {
    hide Confirms, HasPlan;
    var v, p :| PreparedBy(all, v, p, j, requireReview);
    assert PreparedBy(all[..k], v, p, j, requireReview);
  }

  lemma AttemptPrepares(file: Mapping, w: World)
    ensures var all := Attempt(file, w);
            forall j :: 0 <= j < |all| && all[j].Submitted? ==> Prepared(all, j, w.requireReview)
  {
    hide Drive, Prepared, Load, IntentOf, PinOf;
    if Attempt(file, w) != [] {
      var spec := Load(file, w.definitionFile).value;
      var intent := IntentOf(spec).value;
      match PinOf(spec)
      case Pinned(revision) =>
        DrivePrepares(intent, revision, w, []);
        assert [] + Drive(intent, revision, w) == Drive(intent, revision, w);
      case Unpinned =>
        var registered := [Registered(intent.definition, Get(spec, "document").value.members, w.registration)];
        var revision := RegisteredRevision(w.registration);
        if revision.Some? && w.checkpointWrites {
          var before := registered + [Checkpointed(Put(spec, "revision_id", String(revision.value)))];
          DrivePrepares(intent, revision.value, w, before);
          assert Attempt(file, w) == before + Drive(intent, revision.value, w);
        }
    }
  }

  // ---------------------------------------------------------------- whole runs

  /** One attempt of a run: the world it meets and the number of effects it lives for. */
  datatype Step = Step(world: World, crash: nat)

  /** Everything a run of retries over one file leaves behind. */
  function Trace(file: Mapping, steps: seq<Step>): seq<Event>
    decreases steps
  {
    if steps == [] then []
    else
      var done := Cut(Attempt(file, steps[0].world), steps[0].crash);
      done + Trace(Persisted(file, done), steps[1..])
  }

  method Retry(c: Consumer, steps: seq<Step>)
    modifies c
    ensures c.trace == old(c.trace) + Trace(old(c.file), steps)
  {
    hide Attempt, Cut, Persisted;
    ghost var done: seq<Event> := [];
    assert steps[0..] == steps;
    for i := 0 to |steps|
      invariant c.trace == old(c.trace) + done
      invariant Trace(old(c.file), steps) == done + Trace(c.file, steps[i..])
    {
      assert steps[i..][0] == steps[i] && steps[i..][1..] == steps[i + 1..];
      ghost var now := Cut(Attempt(c.file, steps[i].world), steps[i].crash);
      c.Consume(steps[i].world, steps[i].crash);
      done := done + now;
    }
  }

  /** The submission names exactly what the spec asks for. */
  ghost predicate Intends(file: Mapping, e: Event)
    requires e.Submitted?
  {
    IntentOf(file) == Some(Intent(e.definition, e.key, e.request))
  }

  /** The run's guarantees about its registrations, checkpoints and submissions. */
  ghost predicate Safe(file: Mapping, trace: seq<Event>) {
    && (forall i :: 0 <= i < |trace| && trace[i].Submitted? ==> Intends(file, trace[i]))
    && (forall i, j :: 0 <= i < j < |trace| && trace[i].Checkpointed? ==>
          !trace[j].Registered? && !trace[j].Checkpointed?)
    && (forall i :: 0 <= i < |trace| && trace[i].Submitted? ==> Justified(file, trace, i))
    && (PinOf(file) != Unpinned ==> forall e :: e in trace ==> !e.Registered? && !e.Checkpointed?)
  }

  /** The submitted revision is the pinned one, or the one checkpointed earlier in the run. */
  ghost predicate Justified(file: Mapping, trace: seq<Event>, i: nat)
    requires i < |trace| && trace[i].Submitted?
  {
    || PinOf(file) == Pinned(trace[i].revision)
    || (PinOf(file) == Unpinned && exists c :: 0 <= c < i && Checkpoints(trace[c], trace[i].revision))
  }

  ghost predicate Checkpoints(e: Event, revision: string) {
    e.Checkpointed? && Get(e.spec, "revision_id") == Some(String(revision))
  }

  /** With a revision in the file, an attempt only drives that revision and leaves the file alone. */
  lemma PinnedAttempt(file: Mapping, w: World, crash: nat)
    requires PinOf(file) != Unpinned
    ensures var events := Cut(Attempt(file, w), crash);
            && Persisted(file, events) == file
            && (forall e :: e in events ==> !e.Registered? && !e.Checkpointed?)
            && (forall e :: e in events && e.Submitted? ==> Intends(file, e) && PinOf(file) == Pinned(e.revision))
  {
    hide Drive, IntentOf, PinOf, Load;
    var all := Attempt(file, w);
    var events := Cut(all, crash);
    assert forall e :: e in events ==> e in all;
    if all != [] {
      LoadKeepsIntent(file, w.definitionFile);
      var spec := Load(file, w.definitionFile).value;
      DriveEvents(IntentOf(spec).value, PinOf(spec).revision, w);
    }
    PersistedUnchanged(file, events);
  }

  lemma {:induction false} PinnedRun(file: Mapping, steps: seq<Step>)
    requires PinOf(file) != Unpinned
    ensures forall e :: e in Trace(file, steps) ==> !e.Registered? && !e.Checkpointed?
    ensures forall e :: e in Trace(file, steps) && e.Submitted? ==> Intends(file, e) && PinOf(file) == Pinned(e.revision)
    decreases steps
  {
    hide Attempt, Intends, PinOf;
    if steps != [] {
      PinnedAttempt(file, steps[0].world, steps[0].crash);
      PinnedRun(file, steps[1..]);
    }
  }

  /** What an unpinned attempt leaves: nothing that matters, or a checkpoint of the registered revision and its drive. */
  lemma UnpinnedAttempt(file: Mapping, w: World, crash: nat)
    requires PinOf(file) == Unpinned
    ensures var events := Cut(Attempt(file, w), crash);
            || (Persisted(file, events) == file && forall e :: e in events ==> e.Registered?)
            || CheckpointedAttempt(file, events)
  {
    hide Registration, IntentOf, PinOf, Load;
    if Attempt(file, w) == [] {
      assert Cut([], crash) == [];
    } else {
      LoadKeepsIntent(file, w.definitionFile);
      var spec := Load(file, w.definitionFile).value;
      RegistrationCut(file, spec, IntentOf(spec).value, Get(spec, "document").value.members, w, crash);
    }
  }

  lemma RegistrationCut(file: Mapping, spec: Mapping, intent: Intent, document: Mapping, w: World, crash: nat)
    requires IntentOf(spec) == IntentOf(file) == Some(intent)
    ensures var events := Cut(Registration(spec, intent, document, w), crash);
            || (Persisted(file, events) == file && forall e :: e in events ==> e.Registered?)
            || CheckpointedAttempt(file, events)
  {
    hide Drive, IntentOf, PinOf, RegisteredRevision, Cut;
    var registered := Registered(intent.definition, document, w.registration);
    var after := AfterRegistration(spec, intent, w);
    NothingCut(file, Registration(spec, intent, document, w));
    NothingCut(file, after);
    if crash > 0 {
      CutFirst(registered, after, crash);
      if crash > 1 && after != [] {
        var revision := RegisteredRevision(w.registration).value;
        var checkpointed := Checkpointed(Put(spec, "revision_id", String(revision)));
        var drive := Drive(intent, revision, w);
        CutFirst(checkpointed, drive, crash - 1);
        CheckpointThenDrive(file, spec, registered, checkpointed, intent, revision, w, crash - 2);
      } else {
        PersistedFirst(file, registered, []);
      }
    }
  }

  lemma CheckpointThenDrive(file: Mapping, spec: Mapping, registered: Event, checkpointed: Event,
                            intent: Intent, revision: string, w: World, crash: nat)
    requires IntentOf(spec) == IntentOf(file) == Some(intent) && registered.Registered?
    requires checkpointed == Checkpointed(Put(spec, "revision_id", String(revision)))
    ensures CheckpointedAttempt(file, [registered] + ([checkpointed] + Cut(Drive(intent, revision, w), crash)))
  {
    hide Drive, IntentOf, PinOf;
    var rest := Cut(Drive(intent, revision, w), crash);
    var events := [registered] + ([checkpointed] + rest);
    assert events[2..] == rest;
    assert forall e :: e in rest ==> e in Drive(intent, revision, w);
    DriveEvents(intent, revision, w);
    PersistedFirst(file, registered, [checkpointed] + rest);
    PersistedFirst(file, checkpointed, rest);
    DriveKeepsFile(checkpointed.spec, intent, revision, w, crash);
    CheckpointPins(spec, revision);
  }

  /** A checkpoint puts a revision into the file and keeps the intent. */
  lemma CheckpointPins(spec: Mapping, revision: string)
    ensures var file := Put(spec, "revision_id", String(revision));
            && IntentOf(file) == IntentOf(spec)
            && Get(file, "revision_id") == Some(String(revision))
            && PinOf(file) == if Blank(revision) then Refused else Pinned(revision)
  {
    PutKeepsIntent(spec, "revision_id", String(revision));
    GetPut(spec, "revision_id", String(revision), "revision_id");
  }

  ghost predicate CheckpointedAttempt(file: Mapping, events: seq<Event>) {
    && |events| >= 2 && events[0].Registered? && events[1].Checkpointed?
    && Persisted(file, events) == events[1].spec
    && IntentOf(events[1].spec) == IntentOf(file)
    && PinOf(events[1].spec) != Unpinned
    && (forall e :: e in events[2..] ==> !e.Registered? && !e.Checkpointed?)
    && (forall e :: e in events[2..] && e.Submitted? ==> Intends(file, e) && Checkpoints(events[1], e.revision))
  }

  /** Over every run: one intent, one revision, no registration behind a checkpoint. */
  lemma {:induction false} EveryRunIsSafe(file: Mapping, steps: seq<Step>)
    ensures Safe(file, Trace(file, steps))
    decreases steps
  {
    hide Attempt, IntentOf, PinOf;
    if PinOf(file) != Unpinned {
      PinnedRun(file, steps);
    } else if steps != [] {
      var events := Cut(Attempt(file, steps[0].world), steps[0].crash);
      UnpinnedAttempt(file, steps[0].world, steps[0].crash);
      if CheckpointedAttempt(file, events) {
        PinnedRun(events[1].spec, steps[1..]);
        CheckpointIsSafe(file, events, Trace(events[1].spec, steps[1..]));
      } else {
        EveryRunIsSafe(file, steps[1..]);
        RegistrationIsSafe(file, events, Trace(file, steps[1..]));
      }
    }
  }

  lemma RegistrationIsSafe(file: Mapping, events: seq<Event>, later: seq<Event>)
    requires PinOf(file) == Unpinned && Safe(file, later) && forall e :: e in events ==> e.Registered?
    ensures Safe(file, events + later)
  {
    hide Intends, PinOf, Checkpoints;
    var trace, n := events + later, |events|;
    assert forall i :: 0 <= i < n ==> trace[i] in events;
    forall i | 0 <= i < |trace| && trace[i].Submitted? ensures Justified(file, trace, i) {
      assert trace[i] == later[i - n] && Justified(file, later, i - n);
      var c :| 0 <= c < i - n && Checkpoints(later[c], later[i - n].revision);
      assert Checkpoints(trace[c + n], trace[i].revision);
    }
  }

  lemma CheckpointIsSafe(file: Mapping, events: seq<Event>, later: seq<Event>)
    requires PinOf(file) == Unpinned && CheckpointedAttempt(file, events)
    requires forall e :: e in later ==> !e.Registered? && !e.Checkpointed?
    requires forall e :: e in later && e.Submitted? ==> Intends(events[1].spec, e) && PinOf(events[1].spec) == Pinned(e.revision)
    ensures Safe(file, events + later)
  {
    hide IntentOf;
    var trace := events + later;
    forall j | 2 <= j < |trace|
      ensures !trace[j].Registered? && !trace[j].Checkpointed?
      ensures trace[j].Submitted? ==> Intends(file, trace[j]) && Checkpoints(trace[1], trace[j].revision)
    {
      if j < |events| {
        assert trace[j] == events[2..][j - 2];
      } else {
        assert trace[j] == later[j - |events|];
      }
    }
  }

  /** All submissions of a run carry one definition, revision, key and request. */
  lemma SubmissionsAgree(file: Mapping, steps: seq<Step>, i: nat, j: nat)
    requires var t := Trace(file, steps); i < |t| && j < |t| && t[i].Submitted? && t[j].Submitted?
    ensures var t := Trace(file, steps);
            && t[i].definition == t[j].definition && t[i].revision == t[j].revision
            && t[i].key == t[j].key && t[i].request == t[j].request
  {
    hide PinOf, IntentOf;
    var t := Trace(file, steps);
    EveryRunIsSafe(file, steps);
    assert Intends(file, t[i]) && Intends(file, t[j]);
    assert Justified(file, t, i) && Justified(file, t, j);
    if PinOf(file) == Unpinned {
      var c :| 0 <= c < i && Checkpoints(t[c], t[i].revision);
      var d :| 0 <= d < j && Checkpoints(t[d], t[j].revision);
      assert c == d;
    }
  }

  /** Runs a key-deduplicating server starts: one for each key it has not seen. */
  function RunsStarted(trace: seq<Event>, seen: set<string>): nat {
    if trace == [] then 0
    else if trace[0].Submitted? && trace[0].key !in seen then 1 + RunsStarted(trace[1..], seen + {trace[0].key})
    else RunsStarted(trace[1..], seen)
  }

  lemma {:induction false} OneKeyOneRun(trace: seq<Event>, seen: set<string>, key: string)
    requires forall e :: e in trace && e.Submitted? ==> e.key == key
    ensures RunsStarted(trace, seen) <= if key in seen then 0 else 1
  {
    if trace != [] {
      assert trace[0] in trace;
      OneKeyOneRun(trace[1..], seen, key);
      OneKeyOneRun(trace[1..], seen + {key}, key);
    }
  }

  /** However often the consumer crashes and retries, a key-deduplicating server starts at most one run. */
  lemma AtMostOneRun(file: Mapping, steps: seq<Step>, seen: set<string>)
    ensures RunsStarted(Trace(file, steps), seen) <= 1
  {
    hide IntentOf;
    var t := Trace(file, steps);
    EveryRunIsSafe(file, steps);
    var key := if IntentOf(file).Some? then IntentOf(file).value.key else "";
    forall e | e in t && e.Submitted? ensures e.key == key {
      var i :| 0 <= i < |t| && t[i] == e;
      assert Intends(file, t[i]);
    }
    OneKeyOneRun(t, seen, key);
  }

  // ---------------------------------------------------------------- resuming

  /** A world in which nothing fails for a revision. */
  function KindWorld(revision: string): World {
    var yes := [Member("revision_id", String(revision)), Member("ok", Bool(true)), Member("plan", Object([]))];
    World(Some([]), false, Failed, Answer(yes), Answer(yes), Answer([]), true, true)
  }

  /**
   A checkpointed file can still lead to a submission exactly when its revision is not blank.
   Registration accepts any non-empty revision, but loading refuses a blank one: such a checkpoint
   ends every later attempt before its first effect.
   */
  lemma ResumesUnlessBlank(spec: Mapping, revision: string)
    requires IntentOf(spec).Some?
    ensures var file := Put(spec, "revision_id", String(revision));
            && (!Blank(revision) ==> exists e :: e in Attempt(file, KindWorld(revision)) && e.Submitted?
                                                 && e.revision == revision)
            && (Blank(revision) ==> forall w :: Attempt(file, w) == [])
  {
    hide IntentOf, Blank;
    var file := Put(spec, "revision_id", String(revision));
    CheckpointPins(spec, revision);
    var w := KindWorld(revision);
    assert Load(file, w.definitionFile) == Some(file);
    if !Blank(revision) {
      var intent := IntentOf(spec).value;
      KindWorldConfirms(revision);
      var e := Submitted(intent.definition, revision, intent.key, intent.request, w.submission);
      assert Attempt(file, w) == Drive(intent, revision, w);
      assert e in Submission(intent, revision, w);
      assert e in AfterPlan(intent, revision, w);
      assert e in AfterValidation(intent, revision, w);
      assert e in Drive(intent, revision, w);
    }
  }

  /** A service that answers a registration with a blank revision gets it checkpointed, and no later attempt does anything. */
  lemma BlankRevisionEndsTheRun(file: Mapping, w: World, revision: string)
    requires PinOf(file) == Unpinned && Load(file, w.definitionFile).Some? && w.checkpointWrites
    requires var spec := Load(file, w.definitionFile).value;
             IntentOf(spec).Some? && Get(spec, "document").Some? && Get(spec, "document").value.Object?
    requires RegisteredRevision(w.registration) == Some(revision) && Blank(revision)
    ensures var spec, events := Load(file, w.definitionFile).value, Attempt(file, w);
            && |events| >= 2 && events[1] == Checkpointed(Put(spec, "revision_id", String(revision)))
            && Persisted(file, events) == Put(spec, "revision_id", String(revision))
            && forall later :: Attempt(Persisted(file, events), later) == []
  {
    hide IntentOf, Blank, RegisteredRevision, Load, Drive, Put;
    var spec := Load(file, w.definitionFile).value;
    var intent, written := IntentOf(spec).value, Put(spec, "revision_id", String(revision));
    LoadKeepsIntent(file, w.definitionFile);
    var document := Get(spec, "document").value.members;
    var first, second := Registered(intent.definition, document, w.registration), Checkpointed(written);
    var drive := Drive(intent, revision, w);
    assert Attempt(file, w) == [first] + ([second] + drive);
    PersistedFirst(file, first, [second] + drive);
    PersistedFirst(file, second, drive);
    DriveEvents(intent, revision, w);
    PersistedUnchanged(written, drive);
    ResumesUnlessBlank(spec, revision);
  }

  /** It happens: a spec with a document, registered at the revision ` `. */
  lemma BlankRevisionArises()
    ensures var file, w := SmallSpec(), BlankWorld();
            var events := Attempt(file, w);
            && KeyOrdered(file)
            && (exists e :: e in events && e.Checkpointed? && Get(e.spec, "revision_id") == Some(String(" ")))
            && forall later :: Attempt(Persisted(file, events), later) == []
  {
    SmallSpecIsGood();
    hide Get, Blank, SmallSpec, KeyOrdered, IntentOf, PinOf, Load;
    var file, w := SmallSpec(), BlankWorld();
    assert Blank(" ") && RegisteredRevision(w.registration) == Some(" ") by { BlankAnswer(); }
    BlankRevisionEndsTheRun(file, w, " ");
    GetPut(file, "revision_id", String(" "), "revision_id");
    assert Attempt(file, w)[1] in Attempt(file, w);
  }

  function SmallSpec(): Mapping {
    [Member("definition_id", String("d")), Member("document", Object([])), Member("idempotency_key", String("k"))]
  }

  function BlankWorld(): World {
    KindWorld("r").(registration := Answer([Member("revision_id", String(" "))]))
  }

  lemma BlankAnswer()
    ensures Blank(" ") && RegisteredRevision(BlankWorld().registration) == Some(" ") && BlankWorld().checkpointWrites
  {
  }

  lemma SmallSpecIsGood()
    ensures var file := SmallSpec();
            && KeyOrdered(file) && PinOf(file) == Unpinned && IntentOf(file).Some?
            && Get(file, "document") == Some(Object([])) && forall d :: Load(file, d) == Some(file)
  {
    SmallSpecReads();
    SmallSpecIsOrdered();
    hide Get, Put, SmallSpec, KeyOrdered;
    assert 'd' in "d" && 'k' in "k";
  }

  lemma SmallSpecReads()
    ensures var file := SmallSpec();
            && Get(file, "definition_id") == Some(String("d")) && Get(file, "idempotency_key") == Some(String("k"))
            && Get(file, "document") == Some(Object([]))
            && Get(file, "revision_id") == None && Get(file, "request") == None && Get(file, "business_context") == None
  {
    var file := SmallSpec();
    GetThree(file, "definition_id");
    GetThree(file, "idempotency_key");
    GetThree(file, "document");
    GetThree(file, "revision_id");
    GetThree(file, "request");
    GetThree(file, "business_context");
    hide Get;
  }

  lemma SmallSpecIsOrdered()
    ensures KeyOrdered(SmallSpec())
  {
    var a, b, c := "definition_id", "document", "idempotency_key";
    assert StringLe(a[1..], b[1..]);
    assert StringLe(a, b) && StringLe(b, c) && StringLe(a, c);
    hide StringLe;
  }

  lemma GetThree(members: Mapping, key: string)
    requires |members| == 3
    ensures Get(members, key) == if members[0].key == key then Some(members[0].value)
                                 else if members[1].key == key then Some(members[1].value)
                                 else if members[2].key == key then Some(members[2].value) else None
  {
    assert members[1..][0] == members[1] && members[1..][1..][0] == members[2] && members[1..][1..][1..] == [];
  }

  lemma KindWorldConfirms(revision: string)
    ensures var w := KindWorld(revision);
            Confirms(w.validation, revision) && Confirms(w.planning, revision) && HasPlan(w.planning)
  {
    var yes := [Member("revision_id", String(revision)), Member("ok", Bool(true)), Member("plan", Object([]))];
    assert yes[1..] == [Member("ok", Bool(true)), Member("plan", Object([]))];
    assert yes[1..][1..] == [Member("plan", Object([]))];
    assert Get(yes[1..], "ok") == Some(Bool(true));
    assert Get(yes[1..][1..], "plan") == Some(Object([]));
    assert Get(yes[1..], "plan") == Some(Object([]));
  }

  // ---------------------------------------------------------------- what the file holds

  lemma AttemptWritesInOrder(file: Mapping, w: World)
    requires KeyOrdered(file)
    ensures forall e :: e in Attempt(file, w) && e.Checkpointed? ==> KeyOrdered(e.spec)
  {
    hide KeyOrdered, Drive, Put, IntentOf, PinOf;
    var loaded := Load(file, w.definitionFile);
    if loaded.Some? {
      if w.definitionFile.Some? {
        PutKeepsOrder(file, "document", Object(w.definitionFile.value));
      }
      assert KeyOrdered(loaded.value);
      forall intent, revision ensures forall e :: e in Drive(intent, revision, w) ==> !e.Checkpointed? {
        DriveEvents(intent, revision, w);
      }
      forall revision ensures KeyOrdered(Put(loaded.value, "revision_id", String(revision))) {
        PutKeepsOrder(loaded.value, "revision_id", String(revision));
      }
    }
  }

  lemma {:induction false} PersistedIsWritten(file: Mapping, events: seq<Event>)
    requires KeyOrdered(file) && forall e :: e in events && e.Checkpointed? ==> KeyOrdered(e.spec)
    ensures KeyOrdered(Persisted(file, events))
    decreases events
  {
    hide KeyOrdered;
    if events != [] {
      assert events == [events[0]] + events[1..];
      PersistedIsWritten(if events[0].Checkpointed? then events[0].spec else file, events[1..]);
    }
  }

  /** A run that starts from a spec in key order writes every checkpoint in key order, and so reads back what it wrote. */
  lemma {:induction false} CheckpointsAreInKeyOrder(file: Mapping, steps: seq<Step>)
    requires KeyOrdered(file)
    ensures forall e :: e in Trace(file, steps) && e.Checkpointed? ==> KeyOrdered(e.spec)
    decreases steps
  {
    hide KeyOrdered, Attempt;
    if steps != [] {
      var all := Attempt(file, steps[0].world);
      var events := Cut(all, steps[0].crash);
      AttemptWritesInOrder(file, steps[0].world);
      assert forall e :: e in events ==> e in all;
      PersistedIsWritten(file, events);
      CheckpointsAreInKeyOrder(Persisted(file, events), steps[1..]);
    }
  }
}
