/**
  The cutover of a legacy public mutation queue to private capture. The script talks to a hub that
  publishers and the worker keep using: before each of its calls any number of their steps happen,
  and each call may take effect, take effect and lose its reply, be refused, or be the last thing the
  script does.
*/
module Cutover {
  import opened Wrappers

  datatype Config = Config(
    subjects: seq<string>, retention: string, maxAge: real, maxBytes: int, maxMsgSize: int, maxPerSubject: int,
    discard: string, discardNewPerSubject: bool, noAck: bool,
    identity: nat)  // everything the script never touches

  /** The plan the bridge prints; it states the age in nanoseconds. */
  datatype Wanted = Wanted(
    subjects: seq<string>, retention: string, maxAgeNs: int, maxBytes: int, maxMsgSize: int, maxPerSubject: int,
    discard: string, discardNewPerSubject: bool, noAck: bool)

  datatype Consumer = Consumer(name: string, filter: string, pending: nat, ackPending: nat)

  predicate Legacy(c: Consumer, secure: seq<string>) {
    c.filter != "" && c.filter !in secure
  }

  predicate Idle(c: Consumer) {
    c.pending == 0 && c.ackPending == 0
  }

  /** The same limits, whatever is captured. */
  predicate SameLimits(a: Config, b: Config) {
    a == b.(subjects := a.subjects)
  }

  function Installed(previous: Config, w: Wanted): Config {
    Config(w.subjects, w.retention, w.maxAgeNs as real / 1000000000.0, w.maxBytes, w.maxMsgSize, w.maxPerSubject,
           w.discard, w.discardNewPerSubject, w.noAck, previous.identity)
  }

  /** The limits an existing private queue may have. */
  predicate Bounded(c: Config, w: Wanted) {
    && !c.noAck && c.maxAge == 0.0
    && 0 < c.maxPerSubject <= w.maxPerSubject
    && 0 < c.maxMsgSize <= w.maxMsgSize
    && 0 < c.maxBytes <= w.maxBytes
    && c.retention == "workqueue" && c.discard == "new" && c.discardNewPerSubject
  }

  predicate SafePlan(w: Wanted) {
    && !w.noAck && w.maxAgeNs == 0 && 0 < w.maxPerSubject && 0 < w.maxMsgSize && 0 < w.maxBytes
    && w.retention == "workqueue" && w.discard == "new" && w.discardNewPerSubject
  }

  /** Each limit of the plan binds: a bounded queue stays bounded under a plan with another limit exactly as
      long as that is no lower than the queue's own. */
  lemma EachLimitBinds(c: Config, w: Wanted, limit: int)
    requires Bounded(c, w)
    ensures Bounded(c, w.(maxPerSubject := limit)) <==> c.maxPerSubject <= limit
    ensures Bounded(c, w.(maxMsgSize := limit)) <==> c.maxMsgSize <= limit
    ensures Bounded(c, w.(maxBytes := limit)) <==> c.maxBytes <= limit
  {
  }

  /** Installing a plan and then checking it against itself succeeds exactly for a safe plan. */
  lemma InstalledIsBoundedExactlyWhenSafe(previous: Config, w: Wanted)
    ensures Bounded(Installed(previous, w), w) <==> SafePlan(w)
  {
  }

  // ---------------------------------------------------------------- the hub

  datatype Act = Publish | Finish

  /** How a call turns out. A lost reply and a refusal reach the script as exceptions its guard catches.
      An interruption (a signal, a cancellation, a crash) does not: the script ends there, and whether the
      request still took effect is not for it to know. */
  datatype Outcome = Applied | ReplyLost | Refused | Cut(took: bool)

  predicate Took(o: Outcome) {
    o == Applied || o == ReplyLost || o == Cut(true)
  }

  predicate Raised(o: Outcome) {
    o == ReplyLost || o == Refused
  }

  /** What happens around one call. */
  datatype Turn = Turn(before: seq<Act>, outcome: Outcome)

  /** With no turns left nobody else acts and every call succeeds. */
  function OutcomeAt(turns: seq<Turn>, i: nat): Outcome {
    if i < |turns| then turns[i].outcome else Applied
  }

  function ActsAt(turns: seq<Turn>, i: nat): seq<Act> {
    if i < |turns| then turns[i].before else []
  }

  function Rest(turns: seq<Turn>): seq<Turn> {
    if turns == [] then [] else turns[1..]
  }

  predicate AllApplied(turns: seq<Turn>) {
    forall t :: t in turns ==> t.outcome == Applied
  }

  /** `rest` is what is left of `turns` after some calls. */
  predicate LeftOf(rest: seq<Turn>, turns: seq<Turn>) {
    |rest| <= |turns| && rest == turns[|turns| - |rest|..]
  }

  lemma OneCallLess(turns: seq<Turn>)
    ensures LeftOf(turns, turns) && LeftOf(Rest(turns), turns)
  {
  }

  lemma CallsAddUp(last: seq<Turn>, middle: seq<Turn>, first: seq<Turn>)
    requires LeftOf(last, middle) && LeftOf(middle, first)
    ensures LeftOf(last, first)
  {
  }

  lemma StillApplied(rest: seq<Turn>, turns: seq<Turn>)
    requires LeftOf(rest, turns)
    ensures AllApplied(turns) ==> AllApplied(rest)
    ensures turns == [] ==> rest == [] && AllApplied(turns)
    ensures SomeRaised(rest) ==> SomeRaised(turns)
    ensures SomeCut(rest) ==> SomeCut(turns)
  {
  }

  ghost predicate SomeRaised(turns: seq<Turn>) {
    exists t :: t in turns && Raised(t.outcome)
  }

  ghost predicate SomeCut(turns: seq<Turn>) {
    exists t :: t in turns && t.outcome.Cut?
  }

  lemma FirstOfTurns(turns: seq<Turn>)
    ensures AllApplied(turns) ==> OutcomeAt(turns, 0) == Applied
    ensures Raised(OutcomeAt(turns, 0)) ==> SomeRaised(turns)
    ensures OutcomeAt(turns, 0).Cut? ==> SomeCut(turns)
  {
    assert turns != [] ==> turns[0] in turns;
  }

  /** The queue after publishers and the worker had a go. With admission not running nobody publishes on
      the private subjects, so while only those are captured the queue cannot grow. */
  function Queue(messages: nat, acts: seq<Act>, public: bool): (left: nat)
    ensures !public ==> left <= messages
  {
    if acts == [] then messages
    else
      var before := Queue(messages, acts[..|acts| - 1], public);
      if acts[|acts| - 1] == Publish then if public then before + 1 else before
      else if before > 0 then before - 1 else before
  }

  /** One change of configuration, and how many writes were queued when it was made. */
  datatype Change = Change(before: Config, after: Config, queued: nat)

  datatype Info = Info(config: Config, messages: nat)

  class Hub {
    const secure: seq<string>
    var present: bool
    var config: Config
    var messages: nat
    var consumers: set<Consumer>
    var turns: seq<Turn>  // how the calls to come turn out

    ghost var changes: seq<Change>
    ghost var accepted: nat
    ghost var finished: nat

    /** Writes leave the queue only when the worker finishes them, and consumers have names of their own. */
    ghost predicate Valid()
      reads this
    {
      && messages + finished == accepted
      && forall a, b :: a in consumers && b in consumers && a.name == b.name ==> a == b
    }

    constructor (secure: seq<string>, present: bool, config: Config, messages: nat, consumers: set<Consumer>,
                 turns: seq<Turn>)
      requires forall a, b :: a in consumers && b in consumers && a.name == b.name ==> a == b
      ensures Valid() && this.secure == secure && this.present == present && this.config == config
      ensures this.messages == messages && this.consumers == consumers && this.turns == turns && changes == []
    {
      this.secure, this.present, this.config, this.messages := secure, present, config, messages;
      this.consumers, this.turns := consumers, turns;
      changes, accepted, finished := [], messages, 0;
    }

    /** Publishers and the worker. */
    method Interfere() returns (outcome: Outcome)
      requires Valid()
      modifies this`messages, this`turns, this`accepted, this`finished
      ensures Valid() && turns == Rest(old(turns)) && outcome == OutcomeAt(old(turns), 0)
      ensures messages == Queue(old(messages), ActsAt(old(turns), 0), config.subjects != secure)
      ensures config.subjects == secure ==> accepted == old(accepted)
    {
      if turns == [] {
        return Applied;
      }
      var acts := turns[0].before;
      for i := 0 to |acts|
        invariant Valid() && turns == old(turns)
        invariant messages == Queue(old(messages), acts[..i], config.subjects != secure)
        invariant config.subjects == secure ==> accepted == old(accepted)
      {
        assert acts[..i + 1][..i] == acts[..i];
        if acts[i] == Publish && config.subjects != secure {
          messages, accepted := messages + 1, accepted + 1;
        } else if acts[i] == Finish && messages > 0 {
          messages, finished := messages - 1, finished + 1;
        }
      }
      assert acts[..|acts|] == acts;
      outcome, turns := turns[0].outcome, turns[1..];
    }

    method StreamInfo() returns (call: Outcome, info: Option<Info>)
      requires Valid()
      modifies this`messages, this`turns, this`accepted, this`finished
      ensures Valid() && turns == Rest(old(turns)) && call == OutcomeAt(old(turns), 0)
      ensures messages == Queue(old(messages), ActsAt(old(turns), 0), config.subjects != secure)
      ensures info == if call == Applied && present then Some(Info(config, messages)) else None
    {
      call := Interfere();
      info := if call == Applied && present then Some(Info(config, messages)) else None;
    }

    method UpdateStream(c: Config) returns (call: Outcome)
      requires Valid()
      modifies this`messages, this`turns, this`accepted, this`finished, this`config, this`changes
      ensures Valid() && turns == Rest(old(turns)) && call == OutcomeAt(old(turns), 0)
      ensures messages == Queue(old(messages), ActsAt(old(turns), 0), old(config).subjects != secure)
      ensures config == if Took(call) then c else old(config)
      ensures changes == old(changes) + if Took(call) then [Change(old(config), c, messages)] else []
    {
      call := Interfere();
      if Took(call) {
        changes := changes + [Change(config, c, messages)];
        config := c;
      }
    }

    method ConsumersInfo() returns (call: Outcome, list: seq<Consumer>)
      requires Valid()
      modifies this`messages, this`turns, this`accepted, this`finished
      ensures Valid() && turns == Rest(old(turns)) && call == OutcomeAt(old(turns), 0)
      ensures call == Applied ==> forall c :: c in list <==> c in consumers
    {
      call := Interfere();
      list := [];
      if call == Applied {
        var rest := consumers;
        while rest != {}
          invariant rest <= consumers && forall c :: c in list <==> c in consumers && c !in rest
          decreases |rest|
        {
          var c :| c in rest;
          rest, list := rest - {c}, list + [c];
        }
      }
    }

    method DeleteConsumer(name: string) returns (call: Outcome)
      requires Valid()
      modifies this`messages, this`turns, this`accepted, this`finished, this`consumers
      ensures Valid() && turns == Rest(old(turns)) && call == OutcomeAt(old(turns), 0)
      ensures consumers == if Took(call) then set c | c in old(consumers) && c.name != name else old(consumers)
    {
      call := Interfere();
      if Took(call) {
        consumers := set c | c in consumers && c.name != name;
      }
    }
  }

  // ---------------------------------------------------------------- the script

  datatype Call = FirstRead | Pausing | SecondRead | Installing | Restoring(installed: bool) | Cleanup

  datatype Report =
    | Absent | AlreadyPrivate | Plan | Done
    | CallFailed | UnsafeLimits | QueueNotEmpty            // raised before any change
    | PauseFailed(pausing: Outcome)                        // the first update raised
    | RolledBack(installed: bool, restoring: Outcome)      // raised inside the guarded block
    | CleanupFailed | ConsumerBusy                         // raised after the cutover
    | Interrupted(at: Call, took: bool)

  /** Retention and limits change only while the public subjects are not captured and nothing is queued. */
  ghost predicate QuietChange(c: Change, secure: seq<string>) {
    SameLimits(c.before, c.after) || (c.before.subjects == secure && c.queued == 0)
  }

  /** The log of changes grew, by quiet changes only. */
  ghost predicate GrewQuietly(before: seq<Change>, after: seq<Change>, secure: seq<string>) {
    && before <= after
    && forall i :: |before| <= i < |after| ==> QuietChange(after[i], secure)
  }

  lemma GrewByNothing(log: seq<Change>, secure: seq<string>)
    ensures GrewQuietly(log, log, secure)
  {
  }

  lemma GrewByOne(before: seq<Change>, after: seq<Change>, c: Change, secure: seq<string>)
    requires GrewQuietly(before, after, secure) && QuietChange(c, secure)
    ensures GrewQuietly(before, after + [c], secure)
  {
  }

  ghost predicate HasBusyLegacy(consumers: set<Consumer>, secure: seq<string>) {
    exists c :: c in consumers && Legacy(c, secure) && !Idle(c)
  }

  /** What a first read that succeeds leads to, when that is not the change of capture. */
  function Refusal(present: bool, config: Config, messages: nat, wanted: Wanted, apply: bool): Option<Report> {
    if !present then Some(Absent)
    else if config.subjects == wanted.subjects then
      Some(if Bounded(config, wanted) then AlreadyPrivate else UnsafeLimits)
    else if !apply then Some(Plan)
    else if messages > 0 then Some(QueueNotEmpty)
    else None
  }

  /** The outcome when nobody else acts and no call fails. */
  ghost function Expected(present: bool, config: Config, messages: nat, consumers: set<Consumer>, wanted: Wanted,
                          apply: bool): Report {
    var early := Refusal(present, config, messages, wanted, apply);
    if early.Some? then early.value
    else if HasBusyLegacy(consumers, wanted.subjects) then ConsumerBusy
    else Done
  }

  function Paused(previous: Config, w: Wanted): Config {
    previous.(subjects := w.subjects)
  }

  predicate CutOver(report: Report) {
    report == Done || report == CleanupFailed || report == ConsumerBusy || (report.Interrupted? && report.at == Cleanup)
  }

  /** The configuration each end of the script leaves behind. */
  function Left(report: Report, previous: Config, w: Wanted): Config {
    match report
    case PauseFailed(pausing) => if Took(pausing) then Paused(previous, w) else previous
    case RolledBack(installed, restoring) =>
      if Took(restoring) then previous else if installed then Installed(previous, w) else Paused(previous, w)
    case Interrupted(Pausing, took) => if took then Paused(previous, w) else previous
    case Interrupted(SecondRead, _) => Paused(previous, w)
    case Interrupted(Installing, took) => if took then Installed(previous, w) else Paused(previous, w)
    case Interrupted(Restoring(installed), took) =>
      if took then previous else if installed then Installed(previous, w) else Paused(previous, w)
    case _ => if CutOver(report) then Installed(previous, w) else previous
  }

  /** An end that leaves everything as it was. */
  predicate Harmless(report: Report) {
    && !CutOver(report)
    && (report.PauseFailed? ==> report.pausing == Refused)
    && (report.RolledBack? ==> report.restoring != Refused)
    && (report.Interrupted? ==>
          match report.at
          case FirstRead => true
          case Pausing => !report.took
          case Restoring(_) => report.took
          case _ => false)
  }

  /** What the script can end with: only a lost reply or a refusal is reported as a failed call. */
  predicate Possible(report: Report) {
    && (report.PauseFailed? ==> Raised(report.pausing))
    && (report.RolledBack? ==> !report.restoring.Cut?)
  }

  /** Everything is as before exactly when the end was harmless: a failed first update was refused rather
      than lost, a restoring update was not refused, an interruption came before the pause took effect or
      after restoring did. */
  lemma LeftIsPreviousExactlyWhenHarmless(report: Report, previous: Config, w: Wanted)
    requires previous.subjects != w.subjects && Possible(report)
    ensures Left(report, previous, w) == previous <==> Harmless(report)
  {
    assert Paused(previous, w).subjects == w.subjects && Installed(previous, w).subjects == w.subjects;
  }

  /** A run that stops half-way leaves private capture behind. The next run takes that for a finished
      migration or refuses to go on; which one depends on the limits that happen to be there. */
  lemma NextRunFinds(report: Report, previous: Config, w: Wanted)
    requires previous.subjects != w.subjects && Possible(report) && !Harmless(report)
    ensures Left(report, previous, w).subjects == w.subjects
    ensures Left(report, previous, w) == Paused(previous, w) || Left(report, previous, w) == Installed(previous, w)
    ensures Bounded(Paused(previous, w), w) <==> Bounded(previous, w)
    ensures Bounded(Installed(previous, w), w) <==> SafePlan(w)
  {
    InstalledIsBoundedExactlyWhenSafe(previous, w);
  }

  /** An end between the pausing call and the installed plan. */
  predicate Halfway(report: Report) {
    report.PauseFailed? || report.RolledBack? ||
    (report.Interrupted? && report.at != FirstRead && report.at != Cleanup)
  }

  /** How the guarded block ends: with the plan installed, with an exception its guard catches, or for good. */
  datatype Block = Through | Threw(installed: bool) | Ended(at: Call, took: bool)

  /** The block throws when its read raises, when a write arrived before it, or when the update raises. */
  ghost predicate BlockEnds(block: Block, reading: Outcome, late: bool, installing: Outcome) {
    && (reading.Cut? ==> block == Ended(SecondRead, reading.took))
    && (Raised(reading) || (reading == Applied && late) ==> block == Threw(false))
    && (AsksToInstall(reading, late) ==>
          && (installing == Applied ==> block == Through)
          && (installing.Cut? ==> block == Ended(Installing, installing.took))
          && (Raised(installing) ==> block == Threw(installing == ReplyLost)))
  }

  predicate AsksToInstall(reading: Outcome, late: bool) {
    reading == Applied && !late
  }

  /** Looks again at the queue of the paused stream and installs the plan when it is still empty. */
  method TryToInstall(hub: Hub, wanted: Wanted, previous: Config, ghost log: seq<Change>) returns (block: Block)
    requires hub.Valid() && hub.present && hub.secure == wanted.subjects && hub.config == Paused(previous, wanted)
    requires GrewQuietly(log, hub.changes, hub.secure)
    modifies hub`messages, hub`turns, hub`accepted, hub`finished, hub`config, hub`changes
    ensures hub.Valid() && GrewQuietly(log, hub.changes, hub.secure)
    ensures hub.config ==
      match block
      case Through => Installed(previous, wanted)
      case Threw(installed) => if installed then Installed(previous, wanted) else Paused(previous, wanted)
      case Ended(at, took) => Left(Interrupted(at, took), previous, wanted)
    ensures block == Threw(true) ==> hub.messages == 0
    ensures
      var late := Queue(old(hub.messages), ActsAt(old(hub.turns), 0), false) > 0;
      && BlockEnds(block, OutcomeAt(old(hub.turns), 0), late, OutcomeAt(old(hub.turns), 1))
      && hub.turns == if AsksToInstall(OutcomeAt(old(hub.turns), 0), late) then Rest(Rest(old(hub.turns)))
                      else Rest(old(hub.turns))
  {
    hide QuietChange, GrewQuietly, Queue, Rest, OutcomeAt, ActsAt;
    LaterCalls(hub.turns, 0);
    var reading, again := hub.StreamInfo();
    if reading.Cut? {
      return Ended(SecondRead, reading.took);
    }
    if reading != Applied || again.value.messages != 0 {
      return Threw(false);
    }
    ghost var before := hub.changes;
    var installing := hub.UpdateStream(Installed(previous, wanted));
    UpdateIsQuiet(log, before, hub.changes, Paused(previous, wanted), Installed(previous, wanted), hub.messages,
                  Took(installing), hub.secure);
    block := if installing == Applied then Through
             else if installing.Cut? then Ended(Installing, installing.took)
             else Threw(installing == ReplyLost);
  }

  /** A write came in before the second read: what was queued when the pause took effect, or is still. */
  ghost predicate LateWrite(messages: nat, turns: seq<Turn>) {
    Queue(Queue(messages, ActsAt(turns, 0), true), ActsAt(turns, 1), false) > 0
  }

  /** The end of the change of capture, from how its calls turn out and whether a write came in. */
  ghost predicate Answers(early: Option<Report>, messages: nat, turns: seq<Turn>) {
    AnswersTo(early, OutcomeAt(turns, 0), OutcomeAt(turns, 1), LateWrite(messages, turns),
              OutcomeAt(turns, 2), OutcomeAt(turns, 3))
  }

  /** `next` is the call after the second read: the installing one, or the restoring one when a write came in
      or the read raised; `last` restores when the installing call raised. */
  ghost predicate AnswersTo(early: Option<Report>, pausing: Outcome, reading: Outcome, late: bool, next: Outcome,
                            last: Outcome) {
    && (pausing != Applied ==> early == Some(Unpaused(pausing)))
    && (pausing == Applied && reading.Cut? ==> early == Some(Interrupted(SecondRead, reading.took)))
    && (pausing == Applied && (Raised(reading) || (reading == Applied && late)) ==> early == Some(Undone(false, next)))
    && (pausing == Applied && AsksToInstall(reading, late) ==>
          && (next == Applied ==> early == None)
          && (next.Cut? ==> early == Some(Interrupted(Installing, next.took)))
          && (Raised(next) ==> early == Some(Undone(next == ReplyLost, last))))
  }

  /** The old configuration is there in the end: the pause never took effect, or a call was made to restore
      it and took effect. One is made after a read that raised, a write that came in, or an installing call
      that raised; none after an interruption. */
  ghost predicate EndsAsBefore(messages: nat, turns: seq<Turn>) {
    var pausing, reading, late := OutcomeAt(turns, 0), OutcomeAt(turns, 1), LateWrite(messages, turns);
    var next, last := OutcomeAt(turns, 2), OutcomeAt(turns, 3);
    || !Took(pausing)
    || (pausing == Applied && (Raised(reading) || (reading == Applied && late)) && Took(next))
    || (pausing == Applied && AsksToInstall(reading, late) && Raised(next) && Took(last))
  }

  lemma HarmlessExactlyWhenEndsAsBefore(report: Report, messages: nat, turns: seq<Turn>)
    requires CutOver(report) || Halfway(report)
    requires Answers(if Halfway(report) then Some(report) else None, messages, turns)
    ensures Harmless(report) <==> EndsAsBefore(messages, turns)
  {
    hide OutcomeAt, LateWrite;
  }

  /** Pauses public capture, installs the plan, and puts `previous` back when that raises. */
  method ChangeCapture(hub: Hub, wanted: Wanted, previous: Config) returns (early: Option<Report>)
    requires hub.Valid() && hub.present && hub.secure == wanted.subjects
    requires hub.config == previous && previous.subjects != wanted.subjects
    modifies hub`messages, hub`turns, hub`accepted, hub`finished, hub`config, hub`changes
    ensures hub.Valid() && GrewQuietly(old(hub.changes), hub.changes, hub.secure)
    ensures LeftOf(hub.turns, old(hub.turns))
    ensures early.Some? ==> Possible(early.value) && Halfway(early.value)
    ensures hub.config == if early.Some? then Left(early.value, previous, wanted) else Installed(previous, wanted)
    ensures Answers(early, old(hub.messages), old(hub.turns))
  {
    hide *;
    GrewByNothing(hub.changes, hub.secure);
    LimitsStay(previous, wanted);
    ghost var t0, m0, before := hub.turns, hub.messages, hub.changes;
    FourCalls(t0);
    var pausing := hub.UpdateStream(Paused(previous, wanted));
    UpdateIsQuiet(old(hub.changes), before, hub.changes, previous, Paused(previous, wanted), hub.messages,
                  Took(pausing), hub.secure);
    EndsAtPausing(pausing, m0, t0, previous, wanted);
    if pausing != Applied {
      return Some(Unpaused(pausing));
    }
    var block := TryToInstall(hub, wanted, previous, old(hub.changes));
    LateWriteIs(m0, t0);
    if block.Threw? {
      before := hub.changes;
      ghost var was := hub.config;
      ThrownIsPrivate(block, previous, wanted);
      var restoring := hub.UpdateStream(previous);
      UpdateIsQuiet(old(hub.changes), before, hub.changes, was, previous, hub.messages, Took(restoring), hub.secure);
      EndsRestoring(block.installed, restoring, m0, t0, previous, wanted);
      return Some(Undone(block.installed, restoring));
    }
    EndsOtherwise(block, m0, t0);
    early := if block.Ended? then Some(Interrupted(block.at, block.took)) else None;
  }

  function Unpaused(pausing: Outcome): Report {
    if pausing.Cut? then Interrupted(Pausing, pausing.took) else PauseFailed(pausing)
  }

  /** How the guarded block ends once it tried to restore. */
  function Undone(installed: bool, restoring: Outcome): Report {
    if restoring.Cut? then Interrupted(Restoring(installed), restoring.took) else RolledBack(installed, restoring)
  }

  lemma LateWriteIs(messages: nat, turns: seq<Turn>)
    ensures LateWrite(messages, turns) ==
      (Queue(Queue(messages, ActsAt(turns, 0), true), ActsAt(Rest(turns), 0), false) > 0)
  {
    hide Queue;
  }

  /** The calls by their number, and by what is left before each. */
  lemma FourCalls(turns: seq<Turn>)
    ensures
      var t1 := Rest(turns);
      var t2 := Rest(t1);
      var t3 := Rest(t2);
      && OutcomeAt(t1, 0) == OutcomeAt(turns, 1)
      && OutcomeAt(t1, 1) == OutcomeAt(t2, 0) == OutcomeAt(turns, 2)
      && OutcomeAt(t3, 0) == OutcomeAt(turns, 3)
      && LeftOf(t1, turns) && LeftOf(t2, turns) && LeftOf(t3, turns) && LeftOf(Rest(t3), turns)
  {
    hide OutcomeAt, Rest, LeftOf;
    var t1 := Rest(turns);
    var t2 := Rest(t1);
    var t3 := Rest(t2);
    LaterCalls(turns, 0);
    LaterCalls(turns, 1);
    LaterCalls(turns, 2);
    LaterCalls(t1, 0);
    LaterCalls(t1, 1);
    LaterCalls(t2, 0);
    OneCallLess(turns);
    OneCallLess(t1);
    OneCallLess(t2);
    OneCallLess(t3);
    CallsAddUp(t2, t1, turns);
    CallsAddUp(t3, t2, turns);
    CallsAddUp(Rest(t3), t3, turns);
  }

  lemma EndsAtPausing(pausing: Outcome, messages: nat, turns: seq<Turn>, previous: Config, w: Wanted)
    requires pausing == OutcomeAt(turns, 0)
    ensures Took(Applied)
    ensures pausing != Applied ==>
      && Possible(Unpaused(pausing)) && Halfway(Unpaused(pausing))
      && Left(Unpaused(pausing), previous, w) == (if Took(pausing) then Paused(previous, w) else previous)
      && Answers(Some(Unpaused(pausing)), messages, turns)
  {
    hide OutcomeAt, LateWrite;
  }

  lemma ThrownIsPrivate(block: Block, previous: Config, w: Wanted)
    requires block.Threw?
    ensures SameLimits(Paused(previous, w), previous) && Installed(previous, w).subjects == w.subjects
  {
  }

  lemma EndsRestoring(installed: bool, restoring: Outcome, messages: nat, turns: seq<Turn>, previous: Config, w: Wanted)
    requires OutcomeAt(turns, 0) == Applied
    requires BlockEnds(Threw(installed), OutcomeAt(turns, 1), LateWrite(messages, turns), OutcomeAt(turns, 2))
    requires restoring ==
      OutcomeAt(turns, if AsksToInstall(OutcomeAt(turns, 1), LateWrite(messages, turns)) then 3 else 2)
    ensures Possible(Undone(installed, restoring)) && Halfway(Undone(installed, restoring))
    ensures Left(Undone(installed, restoring), previous, w) ==
      if Took(restoring) then previous else if installed then Installed(previous, w) else Paused(previous, w)
    ensures Answers(Some(Undone(installed, restoring)), messages, turns)
  {
    hide OutcomeAt, LateWrite;
  }

  lemma EndsOtherwise(block: Block, messages: nat, turns: seq<Turn>)
    requires OutcomeAt(turns, 0) == Applied && !block.Threw?
    requires BlockEnds(block, OutcomeAt(turns, 1), LateWrite(messages, turns), OutcomeAt(turns, 2))
    ensures block.Ended? ==>
      && Possible(Interrupted(block.at, block.took)) && Halfway(Interrupted(block.at, block.took))
      && Answers(Some(Interrupted(block.at, block.took)), messages, turns)
    ensures block == Through ==> Answers(None, messages, turns)
  {
    hide OutcomeAt, LateWrite;
  }

  lemma NobodyActs(messages: nat, public: bool)
    ensures Queue(messages, [], public) == messages
  {
  }

  lemma NothingToCome(turns: seq<Turn>)
    ensures turns == [] ==> Rest(turns) == [] && ActsAt(turns, 0) == [] && OutcomeAt(turns, 0) == Applied
  {
  }

  lemma LaterCalls(turns: seq<Turn>, i: nat)
    ensures OutcomeAt(Rest(turns), i) == OutcomeAt(turns, i + 1)
  {
  }

  /** Pausing changes what is captured and no limit; pausing and installing both capture the private subjects. */
  lemma LimitsStay(previous: Config, w: Wanted)
    ensures SameLimits(previous, Paused(previous, w)) && SameLimits(Paused(previous, w), previous)
    ensures Paused(previous, w).subjects == w.subjects && Installed(previous, w).subjects == w.subjects
  {
  }

  lemma UpdateIsQuiet(log: seq<Change>, before: seq<Change>, after: seq<Change>, was: Config, becomes: Config,
                      queued: nat, took: bool, secure: seq<string>)
    requires GrewQuietly(log, before, secure)
    requires after == before + if took then [Change(was, becomes, queued)] else []
    requires SameLimits(was, becomes) || (was.subjects == secure && queued == 0)
    ensures GrewQuietly(log, after, secure)
  {
    if took {
      GrewByOne(log, before, Change(was, becomes, queued), secure);
    }
  }

  /** Deletes the idle consumers that still filter on the public subjects; stops at a busy one. */
  method RetireLegacyConsumers(hub: Hub, secure: seq<string>) returns (report: Report)
    requires hub.Valid() && hub.secure == secure && hub.config.subjects == secure
    modifies hub`messages, hub`turns, hub`accepted, hub`finished, hub`consumers
    ensures hub.Valid() && LeftOf(hub.turns, old(hub.turns))
    ensures Cleaned(report, old(hub.consumers), secure, old(hub.turns))
    ensures hub.consumers <= old(hub.consumers)
    ensures forall c :: c in old(hub.consumers) && c !in hub.consumers ==>
      c.filter != "" && c.filter !in secure && c.pending == 0 && c.ackPending == 0
    ensures report == Done ==> forall c :: c in hub.consumers ==> c.filter == "" || c.filter in secure
    ensures report == ConsumerBusy ==>
      exists c :: c in hub.consumers && c.filter != "" && c.filter !in secure && c.pending + c.ackPending > 0
    ensures report == ConsumerBusy ==> HasBusyLegacy(hub.consumers, secure)
  {
    hide Rest, OutcomeAt, LeftOf, AllApplied, SomeRaised, SomeCut;
    FirstOfTurns(hub.turns);
    OneCallLess(hub.turns);
    StillApplied(Rest(hub.turns), hub.turns);
    var call, list := hub.ConsumersInfo();
    if call != Applied {
      return Broken(call);
    }
    for i := 0 to |list|
      invariant hub.Valid() && hub.consumers <= old(hub.consumers) && hub.config == old(hub.config)
      invariant LeftOf(hub.turns, old(hub.turns))
      invariant forall c :: c in old(hub.consumers) && c !in hub.consumers ==> Legacy(c, secure) && Idle(c)
      invariant forall k :: 0 <= k < i ==> list[k] !in hub.consumers || !Legacy(list[k], secure)
    {
      var c := list[i];
      if Legacy(c, secure) {
        if !Idle(c) {
          return ConsumerBusy;
        }
        StillApplied(hub.turns, old(hub.turns));
        FirstOfTurns(hub.turns);
        OneCallLess(hub.turns);
        CallsAddUp(Rest(hub.turns), hub.turns, old(hub.turns));
        var deleting := hub.DeleteConsumer(c.name);
        if deleting != Applied {
          return Broken(deleting);
        }
      }
    }
    return Done;
  }

  /** How the cleanup may end: as the consumers say, unless a call of it failed or was interrupted. */
  ghost predicate Cleaned(report: Report, consumers: set<Consumer>, secure: seq<string>, turns: seq<Turn>) {
    && CutOver(report)
    && (AllApplied(turns) ==> report == if HasBusyLegacy(consumers, secure) then ConsumerBusy else Done)
    && (report == CleanupFailed ==> SomeRaised(turns))
    && (report.Interrupted? ==> SomeCut(turns))
  }

  lemma CleanedLater(report: Report, consumers: set<Consumer>, secure: seq<string>, rest: seq<Turn>, turns: seq<Turn>)
    requires LeftOf(rest, turns) && Cleaned(report, consumers, secure, rest)
    ensures Cleaned(report, consumers, secure, turns)
  {
    hide AllApplied, SomeRaised, SomeCut, LeftOf, CutOver, HasBusyLegacy;
    StillApplied(rest, turns);
  }

  function Broken(call: Outcome): Report {
    if call.Cut? then Interrupted(Cleanup, call.took) else CleanupFailed
  }

  /** Everything after the refusals: the change of capture, then the consumers. */
  method Perform(hub: Hub, wanted: Wanted, previous: Config) returns (report: Report)
    requires hub.Valid() && hub.present && hub.secure == wanted.subjects
    requires hub.config == previous && previous.subjects != wanted.subjects
    modifies hub`messages, hub`turns, hub`accepted, hub`finished, hub`config, hub`changes, hub`consumers
    ensures hub.Valid() && LeftOf(hub.turns, old(hub.turns))
    ensures Possible(report) && (CutOver(report) || Halfway(report))
    ensures CutOver(report) ==> Cleaned(report, old(hub.consumers), hub.secure, old(hub.turns))
    ensures hub.config == Left(report, previous, wanted)
    ensures GrewQuietly(old(hub.changes), hub.changes, hub.secure)
    ensures Answers(if Halfway(report) then Some(report) else None, old(hub.messages), old(hub.turns))
    ensures hub.consumers <= old(hub.consumers)
    ensures forall c :: c in old(hub.consumers) && c !in hub.consumers ==>
      c.filter != "" && c.filter !in hub.secure && c.pending == 0 && c.ackPending == 0
    ensures report == Done ==> forall c :: c in hub.consumers ==> c.filter == "" || c.filter in hub.secure
    ensures report == ConsumerBusy ==>
      exists c :: c in hub.consumers && c.filter != "" && c.filter !in hub.secure && c.pending + c.ackPending > 0
    ensures report == ConsumerBusy ==> HasBusyLegacy(hub.consumers, hub.secure)
    ensures Halfway(report) ==> hub.consumers == old(hub.consumers)
  {
    hide *;
    LimitsStay(previous, wanted);
    var early := ChangeCapture(hub, wanted, previous);
    if early.Some? {
      HalfwayIsNoCutOver(early.value);
      return early.value;
    }
    ghost var turns := hub.turns;
    report := RetireLegacyConsumers(hub, wanted.subjects);
    CallsAddUp(hub.turns, turns, old(hub.turns));
    CleanedLater(report, old(hub.consumers), hub.secure, turns, old(hub.turns));
    CutOverIsPossible(report, old(hub.consumers), hub.secure, old(hub.turns), previous, wanted);
  }

  lemma HalfwayIsNoCutOver(report: Report)
    requires Halfway(report)
    ensures !CutOver(report) && report != Done && report != ConsumerBusy
  {
  }

  lemma CutOverIsPossible(report: Report, consumers: set<Consumer>, secure: seq<string>, turns: seq<Turn>,
                          previous: Config, w: Wanted)
    requires Cleaned(report, consumers, secure, turns)
    ensures CutOver(report) && Possible(report) && !Halfway(report)
    ensures Left(report, previous, w) == Installed(previous, w)
  {
  }

  lemma EarlyEndIsHarmless(report: Report, previous: Config, w: Wanted)
    requires !CutOver(report) && !Halfway(report)
    ensures Possible(report) && Harmless(report) && Left(report, previous, w) == previous
    ensures report != Done && report != ConsumerBusy
  {
  }

  /** The run gets as far as the pausing call: the first read found a public queue with nothing in it. */
  ghost predicate GetsToPausing(hub: Hub, wanted: Wanted, apply: bool)
    reads hub
  {
    && hub.present && hub.config.subjects != wanted.subjects && apply
    && OutcomeAt(hub.turns, 0) == Applied && Queue(hub.messages, ActsAt(hub.turns, 0), true) == 0
  }

  /** The end of a run that does not get to the pausing call, whoever acts before its one call. */
  ghost function FirstEnd(hub: Hub, wanted: Wanted, apply: bool): Option<Report>
    reads hub
  {
    var call := OutcomeAt(hub.turns, 0);
    var left := Queue(hub.messages, ActsAt(hub.turns, 0), hub.config.subjects != wanted.subjects);
    if call.Cut? then Some(Interrupted(FirstRead, call.took))
    else if Raised(call) then Some(CallFailed)
    else Refusal(hub.present, hub.config, left, wanted, apply)
  }

  /** When each end comes that changes nothing, for a first read that succeeds and finds `messages` queued:
      limits are unsafe when one is missing, not positive or above the plan's, or a setting is another. */
  ghost predicate Refuses(early: Option<Report>, present: bool, c: Config, messages: nat, w: Wanted, apply: bool) {
    && (early == Some(Absent) <==> !present)
    && (early == Some(UnsafeLimits) || early == Some(AlreadyPrivate) <==> present && c.subjects == w.subjects)
    && (present && c.subjects == w.subjects ==>
          (early == Some(UnsafeLimits) <==>
            || c.noAck || c.maxAge != 0.0
            || c.maxPerSubject <= 0 || c.maxPerSubject > w.maxPerSubject
            || c.maxMsgSize <= 0 || c.maxMsgSize > w.maxMsgSize
            || c.maxBytes <= 0 || c.maxBytes > w.maxBytes
            || c.retention != "workqueue" || c.discard != "new" || !c.discardNewPerSubject))
    && (early == Some(Plan) <==> present && c.subjects != w.subjects && !apply)
    && (early == Some(QueueNotEmpty) <==> present && c.subjects != w.subjects && apply && messages > 0)
    && (early == None <==> present && c.subjects != w.subjects && apply && messages == 0)
  }

  /** The first read and what it leads to before anything is changed. */
  method Inspect(hub: Hub, wanted: Wanted, apply: bool) returns (early: Option<Report>, previous: Option<Config>)
    requires hub.Valid() && hub.secure == wanted.subjects
    modifies hub`messages, hub`turns, hub`accepted, hub`finished
    ensures hub.Valid() && hub.turns == Rest(old(hub.turns))
    ensures early == old(FirstEnd(hub, wanted, apply))
    ensures early == None <==> old(GetsToPausing(hub, wanted, apply))
    ensures early == None ==> previous == Some(hub.config) && hub.messages == 0
    ensures early == None ==> hub.present && hub.config.subjects != wanted.subjects
    ensures hub.messages == Queue(old(hub.messages), ActsAt(old(hub.turns), 0), hub.config.subjects != wanted.subjects)
    ensures early.Some? ==> !CutOver(early.value) && !Halfway(early.value)
    // the same end by end, when the read succeeds
    ensures OutcomeAt(old(hub.turns), 0) == Applied ==>
      Refuses(early, hub.present, hub.config, hub.messages, wanted, apply)
  {
    hide QuietChange, GrewQuietly, Queue;
    var call, current := hub.StreamInfo();
    if call != Applied {
      return Some(if call.Cut? then Interrupted(FirstRead, call.took) else CallFailed), None;
    }
    if current.None? {
      return Some(Absent), None;
    }
    if current.value.config.subjects == wanted.subjects {
      return Some(if Bounded(current.value.config, wanted) then AlreadyPrivate else UnsafeLimits), None;
    }
    if !apply {
      return Some(Plan), None;
    }
    if current.value.messages != 0 {
      return Some(QueueNotEmpty), None;
    }
    return None, Some(current.value.config);
  }

  /** What a run reports on a stream that already captures the private subjects only. */
  function OnPrivateCapture(config: Config, wanted: Wanted, reading: Outcome): Report {
    if reading == Applied then if Bounded(config, wanted) then AlreadyPrivate else UnsafeLimits
    else if Raised(reading) then CallFailed
    else Interrupted(FirstRead, reading.took)
  }

  method Migrate(hub: Hub, wanted: Wanted, apply: bool) returns (report: Report)
    requires hub.Valid() && hub.secure == wanted.subjects
    modifies hub
    ensures hub.Valid() && hub.present == old(hub.present) && LeftOf(hub.turns, old(hub.turns)) && Possible(report)
    // when nobody else acts and no call fails
    ensures old(hub.turns) == [] ==>
      report == Expected(old(hub.present), old(hub.config), old(hub.messages), old(hub.consumers), wanted, apply)
    // what each end leaves behind, and the ends that leave everything as it was
    ensures hub.config == Left(report, old(hub.config), wanted)
    ensures hub.config == old(hub.config) <==> Harmless(report)
    // the log of changes grows, and every change of limits in it was made on a quiet, empty queue
    ensures GrewQuietly(old(hub.changes), hub.changes, hub.secure)
    // a plan, a refusal or an already private queue changes nothing
    ensures
      var early := old(FirstEnd(hub, wanted, apply));
      && (early == None <==> old(GetsToPausing(hub, wanted, apply)))
      && (early.Some? ==> report == early.value && Harmless(report))
      && (early.Some? ==> hub.changes == old(hub.changes) && hub.consumers == old(hub.consumers))
      && (OutcomeAt(old(hub.turns), 0) == Applied ==>
            var public := old(hub.config).subjects != wanted.subjects;
            var messages := Queue(old(hub.messages), ActsAt(old(hub.turns), 0), public);
            Refuses(early, hub.present, old(hub.config), messages, wanted, apply))
    // the installed plan, field by field; its age is in nanoseconds
    ensures CutOver(report) ==>
      var c := hub.config;
      && c.subjects == wanted.subjects && c.retention == wanted.retention
      && c.maxAge * 1000000000.0 == wanted.maxAgeNs as real
      && c.maxBytes == wanted.maxBytes && c.maxMsgSize == wanted.maxMsgSize
      && c.maxPerSubject == wanted.maxPerSubject && c.discard == wanted.discard
      && c.discardNewPerSubject == wanted.discardNewPerSubject && c.noAck == wanted.noAck
      && c.identity == old(hub.config).identity
    // every end up to the installed plan, from how the calls turn out and whether a write comes in;
    // and so, exactly when the old configuration is there in the end
    ensures old(GetsToPausing(hub, wanted, apply)) ==>
      && Answers(if Halfway(report) then Some(report) else None, 0, Rest(old(hub.turns)))
      && (hub.config == old(hub.config) <==> EndsAsBefore(0, Rest(old(hub.turns))))
      && (Halfway(report) || Cleaned(report, old(hub.consumers), hub.secure, old(hub.turns)))
    // consumers: only idle ones with the legacy filter go, and after success none of those is left
    ensures hub.consumers <= old(hub.consumers)
    ensures forall c :: c in old(hub.consumers) && c !in hub.consumers ==>
      c.filter != "" && c.filter !in hub.secure && c.pending == 0 && c.ackPending == 0
    ensures report == Done ==> forall c :: c in hub.consumers ==> c.filter == "" || c.filter in hub.secure
    ensures report == ConsumerBusy ==>
      exists c :: c in hub.consumers && c.filter != "" && c.filter !in hub.secure && c.pending + c.ackPending > 0
    ensures report == ConsumerBusy ==> HasBusyLegacy(hub.consumers, hub.secure)
    ensures !CutOver(report) ==> hub.consumers == old(hub.consumers)
  {
    hide *;
    GrewByNothing(hub.changes, hub.secure);
    OneCallLess(hub.turns);
    ExpectedIs(hub, wanted, apply);
    var early, previous := Inspect(hub, wanted, apply);
    if early.Some? {
      EarlyEndIsHarmless(early.value, hub.config, wanted);
      return early.value;
    }
    ghost var turns, consumers := hub.turns, hub.consumers;
    report := Perform(hub, wanted, previous.value);
    InstalledTakesThePlan(report, old(hub.config), wanted);
    LeftIsPreviousExactlyWhenHarmless(report, old(hub.config), wanted);
    HarmlessExactlyWhenEndsAsBefore(report, 0, turns);
    CallsAddUp(hub.turns, turns, old(hub.turns));
    if CutOver(report) {
      CleanedLater(report, consumers, hub.secure, turns, old(hub.turns));
    }
    QuietRunEnds(report, 0, consumers, hub.secure, turns);
  }

  lemma InstalledTakesThePlan(report: Report, previous: Config, w: Wanted)
    ensures CutOver(report) ==>
      var c := Left(report, previous, w);
      && c.subjects == w.subjects && c.retention == w.retention
      && c.maxAge * 1000000000.0 == w.maxAgeNs as real
      && c.maxBytes == w.maxBytes && c.maxMsgSize == w.maxMsgSize
      && c.maxPerSubject == w.maxPerSubject && c.discard == w.discard
      && c.discardNewPerSubject == w.discardNewPerSubject && c.noAck == w.noAck
      && c.identity == previous.identity
  {
  }

  lemma ExpectedIs(hub: Hub, wanted: Wanted, apply: bool)
    requires hub.Valid() && hub.secure == wanted.subjects
    ensures hub.turns == [] ==> Rest(hub.turns) == []
    ensures hub.turns == [] ==>
      var early := FirstEnd(hub, wanted, apply);
      var onward := if HasBusyLegacy(hub.consumers, hub.secure) then ConsumerBusy else Done;
      Expected(hub.present, hub.config, hub.messages, hub.consumers, wanted, apply)
        == if early.Some? then early.value else onward
  {
    hide HasBusyLegacy, Bounded;
    NobodyActs(hub.messages, true);
    NobodyActs(hub.messages, false);
  }

  /** When nobody else acts and no call fails, a run that gets to the pausing call is cut over. */
  lemma QuietRunEnds(report: Report, messages: nat, consumers: set<Consumer>, secure: seq<string>, turns: seq<Turn>)
    requires CutOver(report) || Halfway(report)
    requires Answers(if Halfway(report) then Some(report) else None, messages, turns)
    requires CutOver(report) ==> Cleaned(report, consumers, secure, turns)
    ensures turns == [] && messages == 0 ==> report == if HasBusyLegacy(consumers, secure) then ConsumerBusy else Done
  {
    hide HasBusyLegacy;
    NobodyActs(0, true);
    NobodyActs(0, false);
  }

  /** The first update's reply is lost on an empty queue with nobody about: the script raises, capture of
      the public subjects is off, and nothing puts it back. */
  method LosesThePauseReply(secure: seq<string>, config: Config, wanted: Wanted) returns (report: Report, hub: Hub)
    requires config.subjects != secure && wanted.subjects == secure
    ensures report == PauseFailed(ReplyLost) && hub.config == config.(subjects := wanted.subjects) != config
  {
    hub := new Hub(secure, true, config, 0, {}, [Turn([], Applied), Turn([], ReplyLost)]);
    NobodyActs(0, true);
    report := Migrate(hub, wanted, true);
  }

  /** A write arrives between the first read and the pause, and every call succeeds: the second read finds
      it, and the old configuration is back. */
  method RestoresAfterALateWrite(secure: seq<string>, config: Config, wanted: Wanted)
    returns (report: Report, hub: Hub)
    requires config.subjects != secure && wanted.subjects == secure
    ensures report == RolledBack(false, Applied) && hub.config == config
  {
    hub := new Hub(secure, true, config, 0, {}, [Turn([], Applied), Turn([Publish], Applied)]);
    NobodyActs(0, true);
    assert LateWrite(0, Rest(hub.turns)) by { OnePublished(); }
    report := Migrate(hub, wanted, true);
  }

  lemma OnePublished()
    ensures Queue(0, [Publish], true) == 1 && Queue(1, [], false) == 1
  {
    assert [Publish][..0] == [];
  }

  /** An installing update that is refused is followed by one that restores. */
  method RestoresAfterARefusedPlan(secure: seq<string>, config: Config, wanted: Wanted)
    returns (report: Report, hub: Hub)
    requires config.subjects != secure && wanted.subjects == secure
    ensures report == RolledBack(false, Applied) && hub.config == config
  {
    hub := new Hub(secure, true, config, 0, {},
                   [Turn([], Applied), Turn([], Applied), Turn([], Applied), Turn([], Refused)]);
    NobodyActs(0, true);
    NobodyActs(0, false);
    assert OutcomeAt(Rest(hub.turns), 2) == Refused;
    report := Migrate(hub, wanted, true);
  }

  /** A signal during the second read does the same, without even an attempt to roll back. */
  method InterruptedAfterThePause(secure: seq<string>, config: Config, wanted: Wanted)
    returns (report: Report, hub: Hub)
    requires config.subjects != secure && wanted.subjects == secure
    ensures report == Interrupted(SecondRead, false) && hub.config == config.(subjects := wanted.subjects) != config
  {
    hub := new Hub(secure, true, config, 0, {}, [Turn([], Applied), Turn([], Applied), Turn([], Cut(false))]);
    NobodyActs(0, true);
    assert OutcomeAt(Rest(hub.turns), 1) == Cut(false);
    report := Migrate(hub, wanted, true);
  }

  /** Running the script again changes nothing once private capture is there, whichever end the first run
      came to. It is content exactly when the limits it finds are bounded: after the cutover when the
      plan is safe, half-way when the old limits happen to be. It does not come back to a legacy
      consumer the first run left. `changes`, `consumers` and `turns` are what the first run left. */
  method MigrateTwice(hub: Hub, wanted: Wanted)
    returns (first: Report, second: Report,
             ghost changes: seq<Change>, ghost consumers: set<Consumer>, ghost turns: seq<Turn>)
    requires hub.Valid() && hub.secure == wanted.subjects && hub.present
    requires hub.config.subjects != wanted.subjects
    modifies hub
    ensures GrewQuietly(old(hub.changes), changes, hub.secure) && consumers <= old(hub.consumers)
    ensures LeftOf(turns, old(hub.turns))
    ensures !Harmless(first) ==>
      && hub.config == Left(first, old(hub.config), wanted)
      && hub.changes == changes && hub.consumers == consumers
      && second == OnPrivateCapture(hub.config, wanted, OutcomeAt(turns, 0))
    ensures CutOver(first) ==> (Bounded(hub.config, wanted) <==> SafePlan(wanted))
    ensures !Harmless(first) && hub.config == Paused(old(hub.config), wanted) ==>
      (Bounded(hub.config, wanted) <==> Bounded(old(hub.config), wanted))
    ensures first == ConsumerBusy ==> HasBusyLegacy(hub.consumers, hub.secure)
  {
    hide Queue, LeftOf, Rest, GrewQuietly, HasBusyLegacy, Answers, EndsAsBefore, Cleaned, Bounded, SafePlan;
    first := Migrate(hub, wanted, true);
    changes, consumers, turns := hub.changes, hub.consumers, hub.turns;
    if !Harmless(first) {
      NextRunFinds(first, old(hub.config), wanted);
      SecondRun(hub, wanted, true);
    }
    second := Migrate(hub, wanted, true);
  }

  lemma SecondRun(hub: Hub, wanted: Wanted, apply: bool)
    requires hub.present && hub.config.subjects == wanted.subjects
    ensures FirstEnd(hub, wanted, apply) == Some(OnPrivateCapture(hub.config, wanted, OutcomeAt(hub.turns, 0)))
  {
    hide Bounded, Queue, HasBusyLegacy;
  }
}
