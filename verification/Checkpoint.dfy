/**
  The hub's recovery checkpoint as a protocol: the script pauses the capture of new writes, waits for
  the queue to drain, dumps the database and resumes, while publishers and the worker run freely.
  Between any two of its calls the environment may step; a call may succeed, be refused, or take
  effect and lose its reply; the process may die in any state.
*/
module Checkpoint {
  import opened Wrappers

  type Write = nat

  datatype Config = Config(subjects: seq<string>, limits: nat)

  const ADMISSION := ["$ZB.mutation.>"]
  // a subject with a random suffix, which no publisher knows
  const PAUSED := ["$ZB.BACKUP_PAUSED.c2f0"]

  /** Where the script stands: the call it makes next. */
  datatype Pc =
    | ReadInfo | MakeDirectory | WriteResume | Pause
    | Drain | Dump | Bootstrap | CopyConfig | CopyCredentials | Seal
    | Resume(success: bool)
    | Exit(success: bool)
    | Dead

  datatype Stream = Stream(config: Config, queue: set<Write>, accepted: set<Write>)

  /** The steps that wrote a file name it. `synced` files survive the death of the host. */
  datatype Disk = Disk(directory: bool, resumeFile: Option<Config>, dump: Option<set<Write>>, bundle: set<Pc>,
                       manifest: bool, synced: set<Pc>)

  /** What happened, for stating properties: no call reads it. `resumeMissing`: the resuming call failed and
      has not taken effect, or not yet. */
  datatype History = History(acceptedAtPause: Option<set<Write>>, pauseReplyLost: bool, resumeMissing: bool,
                             hostDied: bool)

  datatype Request = ToPause | ToResume

  /** `inFlight`: a request the script no longer waits for may still take effect. */
  datatype State = State(stream: Stream, committed: set<Write>, disk: Disk, pc: Pc, apply: bool, original: Config,
                         inFlight: Option<Request>, past: History)

  function Quiet(c: Config): Config {
    c.(subjects := PAUSED)
  }

  predicate IsPaused(s: State) {
    s.stream.config.subjects == PAUSED
  }

  ghost predicate Init(s: State) {
    && s.pc == ReadInfo && !IsPaused(s)
    && s.stream.queue <= s.stream.accepted <= s.stream.queue + s.committed
    && s.disk.resumeFile == None && s.disk.dump == None && s.disk.bundle == {} && !s.disk.manifest
    && s.disk.synced == {} && s.inFlight == None
    && s.past.acceptedAtPause == None && !s.past.pauseReplyLost && !s.past.resumeMissing && !s.past.hostDied
  }

  // ---------------------------------------------------------------- the environment

  /** A publish gets its durable acknowledgement only while the stream captures its subject. The worker
      commits a queued write before it acknowledges it, and may be handed the same write again. */
  ghost predicate Traffic(s: State, t: State) {
    || (exists w :: w !in s.stream.accepted && !IsPaused(s) && t == s.(stream := Publish(s.stream, w)))
    || (exists w :: w in s.stream.queue && t == s.(committed := s.committed + {w}))
    || (exists w :: w in s.stream.queue && w in s.committed
                 && t == s.(stream := s.stream.(queue := s.stream.queue - {w})))
  }

  /** A request still in flight takes effect or is dropped. */
  ghost predicate LateRequest(s: State, t: State) {
    || (s.inFlight.Some? && t == s.(inFlight := None))
    || (s.inFlight == Some(ToPause) && t == Paused(s, true))
    || (s.inFlight == Some(ToResume) && t == ResumedLate(s))
  }

  /** The system writes a file out to the disk. */
  ghost predicate WrittenOut(s: State, t: State) {
    exists file :: file in Written(s.disk) && t == s.(disk := Synced(s.disk, file))
  }

  ghost predicate Environment(s: State, t: State) {
    Traffic(s, t) || LateRequest(s, t) || WrittenOut(s, t)
  }

  function Publish(stream: Stream, w: Write): Stream {
    stream.(accepted := stream.accepted + {w}, queue := stream.queue + {w})
  }

  function Written(disk: Disk): set<Pc> {
    disk.bundle + (if disk.resumeFile.Some? then {WriteResume} else {}) + (if disk.dump.Some? then {Dump} else {})
    + if disk.manifest then {Seal} else {}
  }

  function Synced(disk: Disk, file: Pc): Disk {
    disk.(synced := disk.synced + {file})
  }

  /** The host dies: files that were not synced are gone. */
  function HostDeath(s: State): State {
    var d := s.disk;
    var left := Disk(d.directory, if WriteResume in d.synced then d.resumeFile else None,
                     if Dump in d.synced then d.dump else None, d.bundle * d.synced,
                     d.manifest && Seal in d.synced, d.synced);
    s.(disk := left, pc := Dead, past := s.past.(hostDied := true))
  }

  // ---------------------------------------------------------------- the script

  function GoTo(s: State, next: Pc): State {
    s.(pc := next)
  }

  function Reconfigured(s: State, config: Config): State {
    s.(stream := s.stream.(config := config))
  }

  /** The pause takes effect. */
  function Paused(s: State, replyLost: bool): State {
    Reconfigured(s, Quiet(s.original)).(
      inFlight := None, past := s.past.(acceptedAtPause := Some(s.stream.accepted), pauseReplyLost := replyLost))
  }

  /** A resume takes effect that the script had given up on. */
  function ResumedLate(s: State): State {
    Reconfigured(s, s.original).(inFlight := None, past := s.past.(resumeMissing := false))
  }

  function Saved(s: State, synced: bool, next: Pc): State {
    var saved := s.disk.(bundle := s.disk.bundle + {s.pc});
    GoTo(s.(disk := if synced then Synced(saved, s.pc) else saved), next)
  }

  /** Saves one more file of the bundle, synced or not, or fails and goes to the `finally` block. */
  ghost predicate CopyStep(s: State, t: State, synced: bool, next: Pc) {
    t == Saved(s, synced, next) || t == GoTo(s, Resume(false))
  }

  ghost predicate Script(s: State, t: State) {
    match s.pc
    case ReadInfo =>
      || t == GoTo(s, Exit(false))
      || (s.stream.config.subjects == ADMISSION && !s.apply && t == GoTo(s, Exit(true)))
      || (s.stream.config.subjects == ADMISSION && s.apply && t == GoTo(s.(original := s.stream.config), MakeDirectory))
    case MakeDirectory =>
      t == GoTo(s, Exit(false)) || (!s.disk.directory && t == GoTo(s.(disk := s.disk.(directory := true)), WriteResume))
    case WriteResume =>
      || t == GoTo(s, Exit(false))
      || t == GoTo(s.(disk := s.disk.(resumeFile := Some(s.original))), Pause)
      || t == GoTo(s.(disk := s.disk.(resumeFile := Some(s.original))), Exit(false))  // written, then chmod fails
    case Pause =>
      || t == GoTo(s, Exit(false))
      || t == GoTo(s.(inFlight := Some(ToPause)), Exit(false))  // given up, but not recalled
      || t == GoTo(Paused(s, false), Drain)
      || t == GoTo(Paused(s, true), Exit(false))
    case Drain =>
      || t == GoTo(s, Resume(false))            // the call failed, or the deadline passed
      || (s.stream.queue != {} && t == s)       // sleep, read again
      || (s.stream.queue == {} && t == GoTo(s, Dump))
    case Dump =>
      || t == GoTo(s.(disk := Synced(s.disk.(dump := Some(s.committed)), Dump)), Bootstrap)  // pg_dump syncs its file
      || t == GoTo(s, Resume(false))
    case Bootstrap => CopyStep(s, t, false, CopyConfig)
    case CopyConfig => CopyStep(s, t, true, CopyCredentials)
    case CopyCredentials => CopyStep(s, t, true, Seal)
    case Seal =>
      || t == GoTo(s, Resume(false))
      || t == GoTo(s.(disk := s.disk.(manifest := true)), Resume(true))
      || t == GoTo(s.(disk := s.disk.(manifest := true)), Resume(false))  // written, then chmod fails
    case Resume(success) =>
      || t == GoTo(Reconfigured(s, s.original), Exit(success))
      || t == GoTo(Reconfigured(s, s.original), Exit(false))
      || t == GoTo(s.(past := s.past.(resumeMissing := true)), Exit(false))
      || t == GoTo(s.(inFlight := Some(ToResume), past := s.past.(resumeMissing := true)), Exit(false))
    case Exit(_) => false
    case Dead => false
  }

  /** The process dies, perhaps with a request just sent, or the whole host does. */
  ghost predicate Death(s: State, t: State) {
    || t == GoTo(s, Dead)
    || (s.pc == Pause && t == GoTo(s.(inFlight := Some(ToPause)), Dead))
    || (s.pc.Resume? && t == GoTo(s.(inFlight := Some(ToResume)), Dead))
    || t == HostDeath(s)
  }

  ghost predicate Next(s: State, t: State) {
    Environment(s, t) || Script(s, t) || Death(s, t)
  }

  // ---------------------------------------------------------------- the invariant

  predicate BeforePause(pc: Pc) {
    pc.ReadInfo? || Prepares(pc)
  }

  predicate Prepares(pc: Pc) {
    pc.MakeDirectory? || pc.WriteResume? || pc.Pause?
  }

  predicate NotDumped(pc: Pc) {
    BeforePause(pc) || pc.Drain? || pc.Dump?
  }

  predicate AfterDump(pc: Pc) {
    pc.Bootstrap? || pc.CopyConfig? || pc.CopyCredentials? || pc.Seal?
  }

  // the files beside the dump, by the steps that save them
  const FILES := {Bootstrap, CopyConfig, CopyCredentials}

  predicate Copied(pc: Pc, bundle: set<Pc>) {
    && (pc == CopyConfig ==> Bootstrap in bundle)
    && (pc == CopyCredentials ==> Bootstrap in bundle && CopyConfig in bundle)
    && (pc == Seal ==> FILES <= bundle)
  }

  /** Nothing accepted is lost: it waits in the queue until PostgreSQL holds it. */
  ghost predicate NothingLost(s: State) {
    && s.stream.queue <= s.stream.accepted <= s.stream.queue + s.committed
    && (s.pc == Dump || AfterDump(s.pc) ==> s.stream.queue == {})
  }

  /** When capture is paused, and what can bring it back. */
  ghost predicate Capture(s: State) {
    && (BeforePause(s.pc) ==> s.past.acceptedAtPause == None && s.inFlight == None)
    && (s.past.acceptedAtPause == None ==> !IsPaused(s) && !s.past.pauseReplyLost && !s.past.resumeMissing)
    && (s.past.acceptedAtPause == None && (Prepares(s.pc) || s.inFlight.Some?) ==>
          s.stream.config == s.original && s.original.subjects == ADMISSION)
    && (Prepares(s.pc) || PauseSent(s) ==> s.apply)
    && (s.inFlight.Some? ==> s.pc == Exit(false) || s.pc == Dead)
    && (s.inFlight == Some(ToPause) ==> s.past.acceptedAtPause == None)
    && (s.inFlight == Some(ToResume) ==> IsPaused(s) && !s.past.pauseReplyLost)
    && (s.past.acceptedAtPause.Some? ==> s.original.subjects == ADMISSION)
    && (s.pc == Drain || s.pc == Dump || AfterDump(s.pc) || s.pc.Resume? ==> IsPaused(s))
    && (IsPaused(s) ==> s.stream.config == Quiet(s.original) && s.past.acceptedAtPause == Some(s.stream.accepted))
    && (s.past.acceptedAtPause.Some? && !IsPaused(s) ==> s.stream.config == s.original)
    && (s.past.pauseReplyLost || s.past.resumeMissing ==> IsPaused(s) && (s.pc == Exit(false) || s.pc == Dead))
    && (s.pc.Exit? && IsPaused(s) ==> s.past.pauseReplyLost || s.past.resumeMissing)
  }

  /** The script got as far as sending the pause. */
  predicate PauseSent(s: State) {
    s.pc == Pause || s.inFlight == Some(ToPause) || s.past.acceptedAtPause.Some?
  }

  /** What the files hold, as long as the host lives or where they were synced before it died. */
  ghost predicate Filed(s: State) {
    && (PauseSent(s) && Survives(WriteResume, s) ==> s.disk.resumeFile == Some(s.original))
    && (AfterDump(s.pc) ==> s.disk.dump.Some?)
    && (NotDumped(s.pc) ==> s.disk.dump == None)
    && (s.disk.dump.Some? ==> s.disk.dump.value <= s.committed)
    && (s.disk.dump.Some? ==> s.past.acceptedAtPause.Some? && s.past.acceptedAtPause.value <= s.disk.dump.value)
    && Copied(s.pc, s.disk.bundle)
    && (s.disk.manifest ==> s.past.acceptedAtPause.Some? && (Survives(Dump, s) ==> s.disk.dump.Some?))
    && (s.disk.manifest ==> forall file :: file in FILES && Survives(file, s) ==> file in s.disk.bundle)
    && (s.pc == Resume(true) ==> s.disk.manifest)
    && (s.pc == Exit(true) ==> if s.apply then s.disk.manifest else s.past.acceptedAtPause == None)
  }

  predicate Survives(file: Pc, s: State) {
    s.past.hostDied ==> file in s.disk.synced
  }

  /** After the death of the host only synced files are left. */
  ghost predicate Lasting(s: State) {
    && (s.past.hostDied ==> s.pc == Dead && Written(s.disk) <= s.disk.synced)
    && (s.disk.manifest ==> Dump in s.disk.synced && CopyConfig in s.disk.synced && CopyCredentials in s.disk.synced)
    && (s.disk.dump.Some? ==> Dump in s.disk.synced)
    && (forall file :: file in s.disk.bundle && file != Bootstrap ==> file in s.disk.synced)
    && s.disk.bundle <= FILES
  }

  ghost predicate Inv(s: State) {
    NothingLost(s) && Capture(s) && Filed(s) && Lasting(s)
  }

  lemma TrafficKeepsCapture(s: State, t: State)
    requires NothingLost(s) && Capture(s) && Traffic(s, t)
    ensures NothingLost(t) && Capture(t)
  {
  }

  lemma TrafficKeepsFiles(s: State, t: State)
    requires Inv(s) && Traffic(s, t)
    ensures Filed(t) && Lasting(t)
  {
  }

  lemma LateRequestKeepsCapture(s: State, t: State)
    requires NothingLost(s) && Capture(s) && LateRequest(s, t)
    ensures NothingLost(t) && Capture(t)
  {
  }

  lemma LateRequestKeepsFiles(s: State, t: State)
    requires Inv(s) && LateRequest(s, t)
    ensures Filed(t) && Lasting(t)
  {
  }

  lemma WritingOutKeepsCapture(s: State, t: State)
    requires NothingLost(s) && Capture(s) && WrittenOut(s, t)
    ensures NothingLost(t) && Capture(t)
  {
  }

  lemma WritingOutKeepsFiles(s: State, t: State)
    requires Inv(s) && WrittenOut(s, t)
    ensures Filed(t) && Lasting(t)
  {
  }

  lemma EnvironmentKeepsInv(s: State, t: State)
    requires Inv(s) && Environment(s, t)
    ensures Inv(t)
  {
    hide Traffic, LateRequest, WrittenOut, NothingLost, Capture, Filed, Lasting;
    if Traffic(s, t) {
      TrafficKeepsCapture(s, t);
      TrafficKeepsFiles(s, t);
    } else if LateRequest(s, t) {
      LateRequestKeepsCapture(s, t);
      LateRequestKeepsFiles(s, t);
    } else {
      WritingOutKeepsCapture(s, t);
      WritingOutKeepsFiles(s, t);
    }
  }

  lemma PreparingKeepsCapture(s: State, t: State)
    requires NothingLost(s) && Capture(s) && Script(s, t) && BeforePause(s.pc)
    ensures NothingLost(t) && Capture(t)
  {
  }

  lemma PreparingKeepsFiles(s: State, t: State)
    requires Inv(s) && Script(s, t) && BeforePause(s.pc)
    ensures Filed(t) && Lasting(t)
  {
  }

  lemma DumpingKeepsCapture(s: State, t: State)
    requires NothingLost(s) && Capture(s) && Script(s, t) && (s.pc == Drain || s.pc == Dump)
    ensures NothingLost(t) && Capture(t)
  {
  }

  lemma DumpingKeepsFiles(s: State, t: State)
    requires Inv(s) && Script(s, t) && (s.pc == Drain || s.pc == Dump)
    ensures Filed(t) && Lasting(t)
  {
  }

  lemma CopyingKeepsCapture(s: State, t: State)
    requires NothingLost(s) && Capture(s) && Script(s, t) && AfterDump(s.pc)
    ensures NothingLost(t) && Capture(t)
  {
  }

  lemma SealingKeepsFiles(s: State, t: State)
    requires Inv(s) && Script(s, t) && s.pc == Seal
    ensures Filed(t) && Lasting(t)
  {
  }

  lemma CopyingKeepsFiles(s: State, t: State)
    requires Inv(s) && Script(s, t) && AfterDump(s.pc)
    ensures Filed(t) && Lasting(t)
  {
    if s.pc == Seal {
      hide Inv, Script, Filed, Lasting;
      SealingKeepsFiles(s, t);
    }
  }

  lemma ResumingKeepsCapture(s: State, t: State)
    requires NothingLost(s) && Capture(s) && Script(s, t) && s.pc.Resume?
    ensures NothingLost(t) && Capture(t)
  {
  }

  lemma ResumingKeepsFiles(s: State, t: State)
    requires Inv(s) && Script(s, t) && s.pc.Resume?
    ensures Filed(t) && Lasting(t)
  {
  }

  lemma DyingKeepsCapture(s: State, t: State)
    requires NothingLost(s) && Capture(s) && Death(s, t)
    ensures NothingLost(t) && Capture(t)
  {
  }

  lemma HostDeathKeepsFiles(s: State)
    requires Filed(s) && Lasting(s)
    ensures Filed(HostDeath(s)) && Lasting(HostDeath(s))
  {
  }

  lemma DyingKeepsFiles(s: State, t: State)
    requires Inv(s) && Death(s, t)
    ensures Filed(t) && Lasting(t)
  {
    hide HostDeath;
    HostDeathKeepsFiles(s);
  }

  lemma StepKeepsInv(s: State, t: State)
    requires Inv(s) && Next(s, t)
    ensures Inv(t)
  {
    hide *;
    InvIs(s);
    if Environment(s, t) {
      EnvironmentKeepsInv(s, t);
    } else if Death(s, t) {
      DyingKeepsCapture(s, t);
      DyingKeepsFiles(s, t);
    } else if BeforePause(s.pc) {
      NextIs(s, t);
      PreparingKeepsCapture(s, t);
      PreparingKeepsFiles(s, t);
    } else if s.pc == Drain || s.pc == Dump {
      NextIs(s, t);
      DumpingKeepsCapture(s, t);
      DumpingKeepsFiles(s, t);
    } else if AfterDump(s.pc) {
      NextIs(s, t);
      CopyingKeepsCapture(s, t);
      CopyingKeepsFiles(s, t);
    } else {
      NextIs(s, t);
      ResumingKeepsCapture(s, t);
      ResumingKeepsFiles(s, t);
    }
    InvIs(t);
  }

  lemma InvIs(s: State)
    ensures Inv(s) <==> NothingLost(s) && Capture(s) && Filed(s) && Lasting(s)
  {
  }

  lemma NextIs(s: State, t: State)
    requires Next(s, t)
    ensures Environment(s, t) || Script(s, t) || Death(s, t)
    ensures Script(s, t) ==> BeforePause(s.pc) || s.pc == Drain || s.pc == Dump || AfterDump(s.pc) || s.pc.Resume?
  {
    hide Environment, Death;
  }

  // ---------------------------------------------------------------- runs

  ghost predicate Run(run: seq<State>) {
    run != [] && Init(run[0]) && forall i :: 0 <= i < |run| - 1 ==> Next(run[i], run[i + 1])
  }

  lemma {:induction false} RunKeepsInv(run: seq<State>, i: nat)
    requires Run(run) && i < |run|
    ensures Inv(run[i])
  {
    if i > 0 {
      hide Inv, Next;
      RunKeepsInv(run, i - 1);
      StepKeepsInv(run[i - 1], run[i]);
    }
  }

  /** What an earlier state tells about a later one. */
  ghost predicate Follows(early: State, late: State) {
    && early.stream.accepted <= late.stream.accepted
    && (early.past.acceptedAtPause == None && late.past.acceptedAtPause.Some? ==>
          early.stream.accepted <= late.past.acceptedAtPause.value)
    && (early.past.acceptedAtPause.Some? ==> late.past.acceptedAtPause == early.past.acceptedAtPause)
    && (early.pc != ReadInfo ==> late.original == early.original && late.pc != ReadInfo)
  }

  lemma PausingFollows(s: State, t: State)
    requires s.past.acceptedAtPause == None && Script(s, t) && s.pc == Pause
    ensures Follows(s, t)
  {
  }

  lemma PreparingFollows(s: State, t: State)
    requires s.past.acceptedAtPause == None && Script(s, t) && BeforePause(s.pc)
    ensures Follows(s, t)
  {
    if s.pc == Pause {
      hide Script, Follows;
      PausingFollows(s, t);
    }
  }

  lemma WorkingFollows(s: State, t: State)
    requires Script(s, t) && !BeforePause(s.pc)
    ensures Follows(s, t)
  {
  }

  lemma EnvironmentFollows(s: State, t: State)
    requires Capture(s) && Environment(s, t)
    ensures Follows(s, t)
  {
  }

  lemma DyingFollows(s: State, t: State)
    requires Death(s, t)
    ensures Follows(s, t)
  {
  }

  lemma StepFollows(s: State, t: State)
    requires Capture(s) && Next(s, t)
    ensures Follows(s, t)
  {
    hide Environment, Script, Death, Follows;
    if Environment(s, t) {
      EnvironmentFollows(s, t);
    } else if Death(s, t) {
      DyingFollows(s, t);
    } else if BeforePause(s.pc) {
      PreparingFollows(s, t);
    } else {
      WorkingFollows(s, t);
    }
  }

  lemma FollowsIsTransitive(s: State, t: State, u: State)
    requires Follows(s, t) && Follows(t, u)
    ensures Follows(s, u)
  {
  }

  lemma FollowsItself(s: State)
    ensures Follows(s, s)
  {
  }

  lemma {:induction false} LaterStatesFollow(run: seq<State>, j: nat, i: nat)
    requires Run(run) && j <= i < |run|
    ensures Follows(run[j], run[i])
  {
    hide Init, Next, Follows, NothingLost, Filed, Lasting;
    RunKeepsInv(run, j);
    if j == i {
      FollowsItself(run[j]);
    } else {
      LaterStatesFollow(run, j, i - 1);
      RunKeepsInv(run, i - 1);
      StepFollows(run[i - 1], run[i]);
      FollowsIsTransitive(run[j], run[i - 1], run[i]);
    }
  }

  /** What an earlier state tells about what is dumped later. */
  ghost predicate Dumps(early: State, late: State) {
    && early.committed <= late.committed
    && (NotDumped(early.pc) && late.disk.dump.Some? ==> early.committed <= late.disk.dump.value)
    && (!NotDumped(early.pc) ==> !NotDumped(late.pc) && (late.disk.dump.Some? ==> late.disk.dump == early.disk.dump))
  }

  lemma ScriptDumps(s: State, t: State)
    requires NotDumped(s.pc) ==> s.disk.dump == None
    requires Script(s, t)
    ensures Dumps(s, t)
  {
  }

  lemma EnvironmentDumps(s: State, t: State)
    requires NotDumped(s.pc) ==> s.disk.dump == None
    requires Environment(s, t)
    ensures Dumps(s, t)
  {
  }

  lemma DyingDumps(s: State, t: State)
    requires NotDumped(s.pc) ==> s.disk.dump == None
    requires Death(s, t)
    ensures Dumps(s, t)
  {
  }

  lemma StepDumps(s: State, t: State)
    requires NotDumped(s.pc) ==> s.disk.dump == None
    requires Capture(s) && Next(s, t)
    ensures Dumps(s, t)
  {
    hide Environment, Script, Death, Dumps, Capture, NotDumped;
    if Script(s, t) {
      ScriptDumps(s, t);
    } else if Environment(s, t) {
      EnvironmentDumps(s, t);
    } else {
      DyingDumps(s, t);
    }
  }

  lemma {:induction false} LaterDumps(run: seq<State>, j: nat, i: nat)
    requires Run(run) && j <= i < |run|
    ensures Dumps(run[j], run[i])
  {
    hide Init, Next, NothingLost, Capture, Lasting;
    RunKeepsInv(run, j);
    if j < i {
      LaterDumps(run, j, i - 1);
      RunKeepsInv(run, i - 1);
      StepDumps(run[i - 1], run[i]);
    }
  }

  /** A checkpoint with a manifest is complete: its dump holds every write that was accepted in any
      state before the pause and every one that was committed before the dump, nothing that was not
      committed, and every file the manifest names was saved. The death of the host can only
      take away what was not synced, the bootstrap and the resume file. */
  lemma ManifestMeansComplete(run: seq<State>, j: nat, i: nat)
    requires Run(run) && j <= i < |run| && run[i].disk.manifest
    ensures run[i].disk.dump.Some? && FILES - {Bootstrap} <= run[i].disk.bundle
    ensures Bootstrap in run[i].disk.bundle <==> Survives(Bootstrap, run[i])
    ensures run[i].disk.resumeFile.Some? <==> Survives(WriteResume, run[i])
    ensures BeforePause(run[j].pc) ==> run[j].stream.accepted <= run[i].disk.dump.value
    ensures NotDumped(run[j].pc) ==> run[j].committed <= run[i].disk.dump.value <= run[i].committed
  {
    LaterDumps(run, j, i);
    RunKeepsInv(run, i);
    RunKeepsInv(run, j);
    LaterStatesFollow(run, j, i);
  }

  /** Between the pause and the resume no publish is accepted. */
  lemma NothingAcceptedWhilePaused(run: seq<State>, j: nat, i: nat)
    requires Run(run) && j <= i < |run| && IsPaused(run[j]) && IsPaused(run[i])
    ensures run[j].stream.accepted == run[i].stream.accepted
  {
    RunKeepsInv(run, j);
    RunKeepsInv(run, i);
    LaterStatesFollow(run, j, i);
  }

  /** A paused stream means the resume file holds the configuration the stream had before the pause,
      whether the script lives or died, unless the host died before the file was synced. The script does
      not sync it. */
  lemma PausedMeansRecoverable(run: seq<State>, j: nat, i: nat)
    requires Run(run) && j <= i < |run| && IsPaused(run[i])
    ensures run[i].disk.resumeFile.Some? <==> run[i].past.hostDied ==> WriteResume in run[i].disk.synced
    ensures run[i].disk.resumeFile.Some? ==>
      && run[i].stream.config == Quiet(run[i].disk.resumeFile.value)
      && run[i].stream.config == run[i].disk.resumeFile.value.(subjects := run[i].stream.config.subjects)
    ensures Prepares(run[j].pc) && run[i].disk.resumeFile.Some? ==> run[i].disk.resumeFile == Some(run[j].stream.config)
  {
    RunKeepsInv(run, i);
    if Prepares(run[j].pc) {
      LaterStatesFollow(run, j, i);
      RunKeepsInv(run, j);
    }
  }

  /** Nothing was written, and no pause was asked for. */
  ghost predicate Untouched(s: State) {
    && s.disk.directory && s.disk.resumeFile == None && s.disk.dump == None && s.disk.bundle == {} && !s.disk.manifest
    && s.past.acceptedAtPause == None && s.inFlight == None
    && (s.pc == ReadInfo || s.pc == MakeDirectory || s.pc.Exit? || s.pc == Dead)
  }

  /** A destination that is there already is never written to, and stops the script before the pause. */
  lemma {:induction false} ExistingDestinationIsKept(run: seq<State>, i: nat)
    requires Run(run) && run[0].disk.directory && i < |run|
    ensures Untouched(run[i])
  {
    if i > 0 {
      ExistingDestinationIsKept(run, i - 1);
      hide Init;
      UntouchedStays(run[i - 1], run[i]);
    }
  }

  lemma UntouchedStays(s: State, t: State)
    requires Untouched(s) && Next(s, t)
    ensures Untouched(t)
  {
  }

  /** A host that dies right after the pause can take the resume file with it. */
  lemma HostDeathCanLoseTheResumeFile(s: State)
    requires Init(s) && s.apply && !s.disk.directory && s.stream.config == Config(ADMISSION, 0)
    ensures exists run: seq<State> ::
      Run(run) && |run| == 6 && run[0] == s && run[5].pc == Dead && IsPaused(run[5]) && run[5].disk.resumeFile == None
  {
    var run := GetsReadyToPause(s);
    var t := GoTo(Paused(run[3], false), Drain);
    assert Script(run[3], t);
    OneMoreStep(run, t);
    assert Death(t, HostDeath(t));
    OneMoreStep(run + [t], HostDeath(t));
    assert (run + [t] + [HostDeath(t)])[5] == HostDeath(t);
  }

  /** So can a pause that takes effect after the script gave up on it: it ends with nothing paused, and
      finds itself paused later. */
  lemma PauseCanComeAfterTheEnd(s: State)
    requires Init(s) && s.apply && !s.disk.directory && s.stream.config == Config(ADMISSION, 0)
    ensures exists run: seq<State> ::
      Run(run) && |run| == 6 && run[0] == s && run[4].pc == Exit(false) && !IsPaused(run[4]) && IsPaused(run[5])
  {
    var run := GetsReadyToPause(s);
    var t := GoTo(run[3].(inFlight := Some(ToPause)), Exit(false));
    assert Script(run[3], t);
    OneMoreStep(run, t);
    assert Environment(t, Paused(t, true));
    OneMoreStep(run + [t], Paused(t, true));
    assert (run + [t] + [Paused(t, true)])[4] == t && (run + [t] + [Paused(t, true)])[5] == Paused(t, true);
  }

  /** When the script ends on its own after the pause took effect, capture is back as it was exactly
      when neither the reply to the pause was lost nor the resume missing: its call failed and has not taken
      effect, or not yet. A run that reports success always has it back. */
  lemma ExitRestoresExactlyWhen(run: seq<State>, i: nat)
    requires Run(run) && i < |run| && run[i].pc.Exit? && run[i].past.acceptedAtPause.Some?
    ensures run[i].stream.config == run[i].original <==> !run[i].past.pauseReplyLost && !run[i].past.resumeMissing
    ensures run[i].pc.success ==> run[i].stream.config == run[i].original && run[i].disk.manifest
  {
    RunKeepsInv(run, i);
  }

  /** The state of a run that succeeded up to the pause. */
  function ReadyToPause(s: State): State {
    s.(original := s.stream.config, pc := Pause,
       disk := s.disk.(directory := true, resumeFile := Some(s.stream.config)))
  }

  lemma GetsReadyToPause(s: State) returns (run: seq<State>)
    requires Init(s) && s.apply && !s.disk.directory && s.stream.config == Config(ADMISSION, 0)
    ensures Run(run) && |run| == 4 && run[0] == s && run[3] == ReadyToPause(s)
  {
    var s1 := GoTo(s.(original := s.stream.config), MakeDirectory);
    var s2 := GoTo(s1.(disk := s1.disk.(directory := true)), WriteResume);
    var s3 := ReadyToPause(s);
    assert Script(s, s1) && Script(s1, s2) && Script(s2, s3);
    run := [s, s1, s2, s3];
  }

  lemma OneMoreStep(run: seq<State>, t: State)
    requires Run(run) && Next(run[|run| - 1], t)
    ensures Run(run + [t])
  {
  }

  /** A run in which everything goes well: the manifest is there, the dump is what was committed, capture
      is as it was. */
  lemma SucceedingRun(s: State)
    requires Init(s) && s.apply && !s.disk.directory && s.stream.config == Config(ADMISSION, 0) && s.stream.queue == {}
    ensures exists run: seq<State> ::
      && Run(run) && |run| == 12 && run[0] == s && run[11].pc == Exit(true)
      && run[11].disk.manifest && run[11].disk.dump == Some(s.committed) && run[11].stream.config == s.stream.config
  {
    var run := GetsReadyToPause(s);
    var s4 := GoTo(Paused(run[3], false), Drain);
    assert Script(run[3], s4);
    OneMoreStep(run, s4);
    var s5 := GoTo(s4, Dump);
    assert Script(s4, s5);
    OneMoreStep(run + [s4], s5);
    var rest := DumpsAndResumes(s5);
    var whole := run + [s4] + [s5];
    assert whole[5] == s5;
    Joined(whole, rest);
    assert (whole + rest[1..])[11] == rest[6] && (whole + rest[1..])[0] == s;
  }

  lemma DumpsAndResumes(s: State) returns (rest: seq<State>)
    requires s.pc == Dump
    ensures |rest| == 7 && rest[0] == s && forall i :: 0 <= i < 6 ==> Next(rest[i], rest[i + 1])
    ensures rest[6].pc == Exit(true) && rest[6].disk.manifest && rest[6].disk.dump == Some(s.committed)
    ensures rest[6].stream.config == s.original
  {
    var s1 := GoTo(s.(disk := Synced(s.disk.(dump := Some(s.committed)), Dump)), Bootstrap);
    var s2 := Saved(s1, false, CopyConfig);
    var s3 := Saved(s2, true, CopyCredentials);
    var s4 := Saved(s3, true, Seal);
    var s5 := GoTo(s4.(disk := s4.disk.(manifest := true)), Resume(true));
    var s6 := GoTo(Reconfigured(s5, s5.original), Exit(true));
    assert Script(s, s1) && Script(s1, s2) && Script(s2, s3) && Script(s3, s4) && Script(s4, s5) && Script(s5, s6);
    rest := [s, s1, s2, s3, s4, s5, s6];
  }

  lemma Joined(run: seq<State>, rest: seq<State>)
    requires Run(run) && rest != [] && rest[0] == run[|run| - 1]
    requires forall i :: 0 <= i < |rest| - 1 ==> Next(rest[i], rest[i + 1])
    ensures Run(run + rest[1..])
  {
    hide Next, Init;
    var all := run + rest[1..];
    forall i | 0 <= i < |all| - 1
      ensures Next(all[i], all[i + 1])
    {
      if i >= |run| - 1 {
        var k := i - (|run| - 1);
        assert all[i] == rest[k] && all[i + 1] == rest[k + 1];
      }
    }
  }

  /** Losing the reply to the pause leaves capture paused: the `finally` block does not know it took effect. */
  lemma LostPauseReplyLeavesCapturePaused(s: State)
    requires Init(s) && s.apply && !s.disk.directory && s.stream.config == Config(ADMISSION, 0)
    ensures exists run: seq<State> ::
      && Run(run) && |run| == 5 && run[0] == s
      && run[4].pc == Exit(false) && IsPaused(run[4]) && !run[4].past.resumeMissing
  {
    var run := GetsReadyToPause(s);
    var t := GoTo(Paused(run[3], true), Exit(false));
    assert Script(run[3], t);
    OneMoreStep(run, t);
    assert (run + [t])[4] == t;
  }
}
