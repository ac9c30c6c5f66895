/**
 The internal flag recorder: what a worker records on completing a task is what a later worker sees on
 replay. Its output, written into the history, is its own later input.
 */
module InternalFlags {
  import opened Common

  datatype Flag = IdAndTypeDeterminismChecks | UpsertSearchAttributeOnPatch | MoveTerminalCommands | TooHigh

  const U32_MAX := 0xFFFF_FFFF

  function Code(f: Flag): nat {
    match f
    case IdAndTypeDeterminismChecks => 1
    case UpsertSearchAttributeOnPatch => 2
    case MoveTerminalCommands => 3
    case TooHigh => U32_MAX
  }

  function FromU32(v: nat): (f: Flag)
    ensures f == TooHigh || Code(f) == v
    ensures forall g :: Code(g) == v ==> f == g
    ensures f == IdAndTypeDeterminismChecks <==> v == 1
    ensures f == UpsertSearchAttributeOnPatch <==> v == 2
    ensures f == MoveTerminalCommands <==> v == 3
  {
    match v
    case 1 => IdAndTypeDeterminismChecks
    case 2 => UpsertSearchAttributeOnPatch
    case 3 => MoveTerminalCommands
    case _ => TooHigh
  }

  const ALL_KNOWN := {IdAndTypeDeterminismChecks, UpsertSearchAttributeOnPatch, MoveTerminalCommands}

  /** `WorkflowTaskCompletedMetadata`; the order of the flag lists carries no meaning. */
  datatype Metadata = Metadata(core: set<nat>, lang: set<nat>, sdkName: string, sdkVersion: string)

  const NO_METADATA := Metadata({}, {}, "", "")

  datatype Flags =
    | Disabled
    | Enabled(
        core: set<Flag>,
        lang: set<nat>,
        coreSince: set<Flag>,   // `core_since_last_complete`, never cleared
        langSince: set<nat>,    // `lang_since_last_complete`, never cleared
        lastName: string,
        lastVersion: string,
        name: string,
        version: string)

  function New(sdkMetadata: bool, name: string, version: string): Flags {
    if sdkMetadata then Enabled({}, {}, {}, {}, "", "", name, version) else Disabled
  }

  function Decoded(codes: set<nat>): set<Flag> {
    set v | v in codes :: FromU32(v)
  }

  function Encoded(flags: set<Flag>): set<nat> {
    set f | f in flags :: Code(f)
  }

  function AddFromComplete(r: Flags, md: Option<Metadata>): Flags {
    if r.Disabled? || md.None? then r
    else
      r.(core := r.core + Decoded(md.value.core),
         lang := r.lang + md.value.lang,
         lastName := if md.value.sdkName != "" then md.value.sdkName else r.lastName,
         lastVersion := if md.value.sdkVersion != "" then md.value.sdkVersion else r.lastVersion)
  }

  function AddLangUsed(r: Flags, flags: set<nat>): Flags {
    if r.Disabled? then r else r.(langSince := r.langSince + flags)
  }

  /** What `try_use` answers, and what it leaves behind. */
  predicate MayUse(r: Flags, f: Flag, shouldRecord: bool) {
    r.Enabled? && (shouldRecord || f in r.core)
  }

  function AfterTryUse(r: Flags, f: Flag, shouldRecord: bool): Flags {
    if r.Enabled? && shouldRecord then r.(coreSince := r.coreSince + {f}) else r
  }

  function WriteAllKnown(r: Flags): Flags {
    if r.Disabled? then r else r.(coreSince := r.coreSince + ALL_KNOWN)
  }

  function Gathered(r: Flags): Metadata {
    if r.Disabled? then NO_METADATA
    else
      Metadata(Encoded(r.coreSince - r.core), r.langSince - r.lang,
               if r.lastName != r.name then r.name else "",
               if r.lastVersion != r.version then r.version else "")
  }

  function AfterGather(r: Flags): Flags {
    if r.Disabled? then r else r.(core := r.core + r.coreSince, lang := r.lang + r.langSince)
  }

  /** The recorder as the object whose methods update it. */
  class Recorder {
    var flags: Flags

    constructor (sdkMetadata: bool, name: string, version: string)
      ensures flags == New(sdkMetadata, name, version)
      ensures forall f :: !MayUse(flags, f, false)
      ensures Gathered(flags) == if sdkMetadata then Metadata({}, {}, name, version) else NO_METADATA
    {
      flags := New(sdkMetadata, name, version);
    }

    method AddCompleted(md: Option<Metadata>)
      modifies this
      ensures flags == AddFromComplete(old(flags), md)
    {
      if flags.Enabled? && md.Some? {
        flags := flags.(core := flags.core + Decoded(md.value.core));
        flags := flags.(lang := flags.lang + md.value.lang);
        if md.value.sdkName != "" { flags := flags.(lastName := md.value.sdkName); }
        if md.value.sdkVersion != "" { flags := flags.(lastVersion := md.value.sdkVersion); }
      }
    }

    method AddLang(used: set<nat>)
      modifies this
      ensures flags == AddLangUsed(old(flags), used)
    {
      if flags.Enabled? { flags := flags.(langSince := flags.langSince + used); }
    }

    method TryUse(f: Flag, shouldRecord: bool) returns (b: bool)
      modifies this
      ensures b <==> MayUse(old(flags), f, shouldRecord)
      ensures flags == AfterTryUse(old(flags), f, shouldRecord)
    {
      if flags.Disabled? { return false; }
      if shouldRecord {
        flags := flags.(coreSince := flags.coreSince + {f});
        return true;
      }
      return f in flags.core;
    }

    method WriteAll()
      modifies this
      ensures flags == WriteAllKnown(old(flags))
    {
      if flags.Enabled? { flags := flags.(coreSince := flags.coreSince + ALL_KNOWN); }
    }

    method GatherForWftComplete() returns (md: Metadata)
      modifies this
      ensures md == Gathered(old(flags)) && flags == AfterGather(old(flags))
    {
      if flags.Disabled? { return NO_METADATA; }
      var coreNew, langNew := Encoded(flags.coreSince - flags.core), flags.langSince - flags.lang;
      flags := flags.(core := flags.core + flags.coreSince, lang := flags.lang + flags.langSince);
      md := Metadata(coreNew, langNew,
                     if flags.lastName != flags.name then flags.name else "",
                     if flags.lastVersion != flags.version then flags.version else "");
    }
  }

  // ----- Workers sharing one history -----

  datatype Action =
    | Record(f: Flag)                          // `try_use` with `should_record`
    | Look(f: Flag)                            // `try_use` without
    | UseLang(flags: set<nat>)
    | WriteAll
    | Complete                                 // gather, and the message enters the history
    | Echo                                     // the worker is shown the latest message again
    | HandOff(name: string, version: string)   // a fresh worker replays the whole history and takes over

  datatype World = World(worker: Flags, history: seq<Metadata>)

  function Replay(r: Flags, history: seq<Metadata>): Flags {
    if history == [] then r
    else AddFromComplete(Replay(r, history[..|history| - 1]), Some(history[|history| - 1]))
  }

  function Act(w: World, a: Action): World {
    match a
    case Record(f) => w.(worker := AfterTryUse(w.worker, f, true))
    case Look(f) => w.(worker := AfterTryUse(w.worker, f, false))
    case UseLang(flags) => w.(worker := AddLangUsed(w.worker, flags))
    case WriteAll => w.(worker := WriteAllKnown(w.worker))
    case Complete => World(AfterGather(w.worker), w.history + [Gathered(w.worker)])
    case Echo =>
      if w.history == [] then w
      else w.(worker := AddFromComplete(w.worker, Some(w.history[|w.history| - 1])))
    case HandOff(name, version) => w.(worker := Replay(New(true, name, version), w.history))
  }

  function Run(name: string, version: string, actions: seq<Action>): World {
    if actions == [] then World(New(true, name, version), [])
    else Act(Run(name, version, actions[..|actions| - 1]), actions[|actions| - 1])
  }

  // What the actions alone say was recorded, task by task.

  function RecordedCore(a: Action): set<Flag> {
    if a.Record? then {a.f}
    else if a.WriteAll? then {IdAndTypeDeterminismChecks, UpsertSearchAttributeOnPatch, MoveTerminalCommands}
    else {}
  }

  function RecordedLang(a: Action): set<nat> {
    if a.UseLang? then a.flags else {}
  }

  /** Flags recorded by the current worker since its last completion. */
  function OpenCore(actions: seq<Action>): set<Flag> {
    if actions == [] then {}
    else
      var a := actions[|actions| - 1];
      if a.Complete? || a.HandOff? then {} else OpenCore(actions[..|actions| - 1]) + RecordedCore(a)
  }

  function OpenLang(actions: seq<Action>): set<nat> {
    if actions == [] then {}
    else
      var a := actions[|actions| - 1];
      if a.Complete? || a.HandOff? then {} else OpenLang(actions[..|actions| - 1]) + RecordedLang(a)
  }

  /** Flags recorded in any of the first `i` completed tasks. */
  function TasksCore(actions: seq<Action>, i: nat): set<Flag> {
    if actions == [] then {}
    else
      var front := actions[..|actions| - 1];
      TasksCore(front, i) +
      if actions[|actions| - 1].Complete? && Completed(front) < i then OpenCore(front) else {}
  }

  function TasksLang(actions: seq<Action>, i: nat): set<nat> {
    if actions == [] then {}
    else
      var front := actions[..|actions| - 1];
      TasksLang(front, i) +
      if actions[|actions| - 1].Complete? && Completed(front) < i then OpenLang(front) else {}
  }

  function Completed(actions: seq<Action>): nat {
    if actions == [] then 0
    else Completed(actions[..|actions| - 1]) + if actions[|actions| - 1].Complete? then 1 else 0
  }

  // ----- Replay -----

  function CoreOf(history: seq<Metadata>): set<Flag> {
    if history == [] then {} else CoreOf(history[..|history| - 1]) + Decoded(history[|history| - 1].core)
  }

  function LangOf(history: seq<Metadata>): set<nat> {
    if history == [] then {} else LangOf(history[..|history| - 1]) + history[|history| - 1].lang
  }

  lemma {:induction false} ReplayCollects(name: string, version: string, history: seq<Metadata>)
    ensures var r := Replay(New(true, name, version), history);
            && r.Enabled? && r.core == CoreOf(history) && r.lang == LangOf(history)
            && r.coreSince == {} && r.langSince == {} && r.name == name && r.version == version
  {
    if history != [] { ReplayCollects(name, version, history[..|history| - 1]); }
  }

  lemma DecodeEncode(flags: set<Flag>)
    ensures Decoded(Encoded(flags)) == flags
  {
    assert forall f :: f in flags ==> Code(f) in Encoded(flags) && FromU32(Code(f)) == f;
  }

  /** The live worker knows exactly what the history says, and holds what its open task recorded. */
  ghost predicate InStep(w: World, openCore: set<Flag>, openLang: set<nat>) {
    && w.worker.Enabled?
    && w.worker.core == CoreOf(w.history) && w.worker.lang == LangOf(w.history)
    && openCore <= w.worker.coreSince <= w.worker.core + openCore
    && openLang <= w.worker.langSince <= w.worker.lang + openLang
  }

  lemma HistoryGrows(history: seq<Metadata>, md: Metadata)
    ensures CoreOf(history + [md]) == CoreOf(history) + Decoded(md.core)
    ensures LangOf(history + [md]) == LangOf(history) + md.lang
  {
    assert (history + [md])[..|history|] == history;
  }

  lemma InStepAct(w: World, openCore: set<Flag>, openLang: set<nat>, a: Action)
    requires InStep(w, openCore, openLang)
    ensures InStep(Act(w, a),
                   if a.Complete? || a.HandOff? then {} else openCore + RecordedCore(a),
                   if a.Complete? || a.HandOff? then {} else openLang + RecordedLang(a))
  {
    match a {
      case Complete =>
        DecodeEncode(w.worker.coreSince - w.worker.core);
        HistoryGrows(w.history, Gathered(w.worker));
      case HandOff(name, version) => ReplayCollects(name, version, w.history);
      case _ =>
    }
  }

  lemma {:induction false} WorkerInStep(name: string, version: string, actions: seq<Action>)
    ensures InStep(Run(name, version, actions), OpenCore(actions), OpenLang(actions))
    ensures |Run(name, version, actions).history| == Completed(actions)
  {
    if actions != [] {
      var front, a := actions[..|actions| - 1], actions[|actions| - 1];
      WorkerInStep(name, version, front);
      InStepAct(Run(name, version, front), OpenCore(front), OpenLang(front), a);
    }
  }

  /** A completion adds exactly the open task's flags to what the history says. */
  lemma CompletionRecords(w: World, openCore: set<Flag>, openLang: set<nat>)
    requires InStep(w, openCore, openLang)
    ensures CoreOf(Act(w, Complete).history) == CoreOf(w.history) + openCore
    ensures LangOf(Act(w, Complete).history) == LangOf(w.history) + openLang
  {
    DecodeEncode(w.worker.coreSince - w.worker.core);
    HistoryGrows(w.history, Gathered(w.worker));
  }

  /** What the first `i` messages hold is what was used in the first `i` tasks. */
  ghost predicate Records(history: seq<Metadata>, actions: seq<Action>, i: nat)
    requires i <= |history|
  {
    CoreOf(history[..i]) == TasksCore(actions, i) && LangOf(history[..i]) == TasksLang(actions, i)
  }

  lemma OldTaskRecords(w: World, actions: seq<Action>, i: nat)
    requires actions != [] && i <= |w.history| == Completed(actions[..|actions| - 1])
    requires Records(w.history, actions[..|actions| - 1], i)
    ensures i <= |Act(w, actions[|actions| - 1]).history|
    ensures Records(Act(w, actions[|actions| - 1]).history, actions, i)
  {
    assert Act(w, actions[|actions| - 1]).history[..i] == w.history[..i];
  }

  lemma NewTaskRecords(w: World, actions: seq<Action>, n: nat)
    requires actions != [] && actions[|actions| - 1].Complete?
    requires n == |w.history| == Completed(actions[..|actions| - 1])
    requires InStep(w, OpenCore(actions[..|actions| - 1]), OpenLang(actions[..|actions| - 1]))
    requires Records(w.history, actions[..|actions| - 1], n)
    ensures |Act(w, Complete).history| == n + 1 && Records(Act(w, Complete).history, actions, n + 1)
  {
    var front := actions[..|actions| - 1];
    var history := Act(w, Complete).history;
    assert w.history[..n] == w.history && history[..n + 1] == history;
    CompletionRecords(w, OpenCore(front), OpenLang(front));
    MoreTasks(front, n, n + 1);
  }

  lemma {:induction false} HistoryRecords(name: string, version: string, actions: seq<Action>, i: nat)
    requires i <= |Run(name, version, actions).history|
    ensures Records(Run(name, version, actions).history, actions, i)
  {
    if actions != [] {
      var front := actions[..|actions| - 1];
      var w := Run(name, version, front);
      WorkerInStep(name, version, front);
      if i <= |w.history| {
        HistoryRecords(name, version, front, i);
        OldTaskRecords(w, actions, i);
      } else {
        HistoryRecords(name, version, front, |w.history|);
        NewTaskRecords(w, actions, |w.history|);
      }
    }
  }

  lemma {:induction false} MoreTasks(actions: seq<Action>, i: nat, j: nat)
    requires Completed(actions) <= i <= j
    ensures TasksCore(actions, i) == TasksCore(actions, j) && TasksLang(actions, i) == TasksLang(actions, j)
  {
    if actions != [] { MoreTasks(actions[..|actions| - 1], i, j); }
  }

  /**
   Replay sees what was recorded: a fresh worker shown the first `i` messages may use exactly the core
   flags, and knows exactly the lang flags, recorded in the first `i` completed tasks, whatever the
   workers did and however they handed over.
   */
  lemma ReplaySeesWhatWasRecorded(
      name: string, version: string, actions: seq<Action>, i: nat, laterName: string, laterVersion: string)
    requires i <= |Run(name, version, actions).history|
    ensures var r := Replay(New(true, laterName, laterVersion), Run(name, version, actions).history[..i]);
            && r.Enabled?
            && (forall f :: MayUse(r, f, false) <==> f in TasksCore(actions, i))
            && (forall v :: v in r.lang <==> v in TasksLang(actions, i))
  {
    HistoryRecords(name, version, actions, i);
    ReplayCollects(laterName, laterVersion, Run(name, version, actions).history[..i]);
  }

  // ----- Each flag is recorded once -----

  ghost predicate PairwiseDisjoint(history: seq<Metadata>) {
    forall j, k :: 0 <= j < k < |history| ==>
                     history[j].core !! history[k].core && history[j].lang !! history[k].lang
  }

  lemma {:induction false} MessageIsKnown(history: seq<Metadata>, j: nat)
    requires j < |history|
    ensures Decoded(history[j].core) <= CoreOf(history) && history[j].lang <= LangOf(history)
  {
    if j < |history| - 1 { MessageIsKnown(history[..|history| - 1], j); }
  }

  lemma GatheredIsNew(w: World, openCore: set<Flag>, openLang: set<nat>, j: nat)
    requires InStep(w, openCore, openLang) && j < |w.history|
    ensures w.history[j].core !! Gathered(w.worker).core && w.history[j].lang !! Gathered(w.worker).lang
  {
    MessageIsKnown(w.history, j);
    forall v | v in w.history[j].core ensures v !in Gathered(w.worker).core {
      assert FromU32(v) in Decoded(w.history[j].core);
    }
  }

  /** No flag is ever written twice into one history, although the pending sets are never cleared. */
  lemma {:induction false} RecordedOncePerHistory(name: string, version: string, actions: seq<Action>)
    ensures PairwiseDisjoint(Run(name, version, actions).history)
  {
    if actions != [] {
      var front := actions[..|actions| - 1];
      RecordedOncePerHistory(name, version, front);
      WorkerInStep(name, version, front);
      var w := Run(name, version, front);
      forall j: nat | j < |w.history|
        ensures w.history[j].core !! Gathered(w.worker).core && w.history[j].lang !! Gathered(w.worker).lang
      {
        GatheredIsNew(w, OpenCore(front), OpenLang(front), j);
      }
    }
  }

  // ----- The last SDK name and version -----

  function LastName(history: seq<Metadata>): string {
    if history == [] then ""
    else if history[|history| - 1].sdkName != "" then history[|history| - 1].sdkName
    else LastName(history[..|history| - 1])
  }

  function LastVersion(history: seq<Metadata>): string {
    if history == [] then ""
    else if history[|history| - 1].sdkVersion != "" then history[|history| - 1].sdkVersion
    else LastVersion(history[..|history| - 1])
  }

  lemma {:induction false} ReplayNames(name: string, version: string, history: seq<Metadata>)
    ensures var r := Replay(New(true, name, version), history);
            r.Enabled? && r.lastName == LastName(history) && r.lastVersion == LastVersion(history)
            && r.name == name && r.version == version
  {
    if history != [] { ReplayNames(name, version, history[..|history| - 1]); }
  }

  /** The history names either what the worker last saw or the worker itself. */
  ghost predicate NamesInStep(w: World) {
    && w.worker.Enabled?
    && (LastName(w.history) == w.worker.lastName || LastName(w.history) == w.worker.name)
    && (LastVersion(w.history) == w.worker.lastVersion || LastVersion(w.history) == w.worker.version)
    && (w.history != [] ==>
          var m := w.history[|w.history| - 1];
          (m.sdkName != "" ==> LastName(w.history) == m.sdkName) &&
          (m.sdkVersion != "" ==> LastVersion(w.history) == m.sdkVersion))
  }

  lemma LastNames(history: seq<Metadata>, md: Metadata)
    ensures LastName(history + [md]) == if md.sdkName != "" then md.sdkName else LastName(history)
    ensures LastVersion(history + [md]) == if md.sdkVersion != "" then md.sdkVersion else LastVersion(history)
  {
    assert (history + [md])[..|history|] == history;
  }

  lemma CompletionNames(w: World)
    requires NamesInStep(w)
    ensures LastName(Act(w, Complete).history) ==
            if w.worker.name != "" then w.worker.name else LastName(w.history)
    ensures LastVersion(Act(w, Complete).history) ==
            if w.worker.version != "" then w.worker.version else LastVersion(w.history)
  {
    LastNames(w.history, Gathered(w.worker));
  }

  lemma CompletionKeepsNames(w: World)
    requires NamesInStep(w)
    ensures NamesInStep(Act(w, Complete))
  {
    CompletionNames(w);
  }

  lemma NamesAct(w: World, a: Action)
    requires NamesInStep(w)
    ensures NamesInStep(Act(w, a))
  {
    match a {
      case Complete => CompletionKeepsNames(w);
      case HandOff(n, v) => ReplayNames(n, v, w.history);
      case _ =>
    }
  }

  lemma {:induction false} NamesStayInStep(name: string, version: string, actions: seq<Action>)
    ensures NamesInStep(Run(name, version, actions))
  {
    if actions != [] {
      NamesStayInStep(name, version, actions[..|actions| - 1]);
      NamesAct(Run(name, version, actions[..|actions| - 1]), actions[|actions| - 1]);
    }
  }

  /** After a completion a replay attributes the history to the worker that completed last. */
  lemma LastWorkerIsNamed(name: string, version: string, actions: seq<Action>, n: string, v: string)
    ensures var w := Run(name, version, actions);
            var r := Replay(New(true, n, v), Act(w, Complete).history);
            && r.Enabled? && w.worker.Enabled?
            && r.lastName == (if w.worker.name != "" then w.worker.name else LastName(w.history))
            && r.lastVersion == (if w.worker.version != "" then w.worker.version else LastVersion(w.history))
  {
    var w := Run(name, version, actions);
    NamesStayInStep(name, version, actions);
    CompletionNames(w);
    ReplayNames(n, v, Act(w, Complete).history);
  }

  // ----- A name or version is written only when it changed -----

  /** What the worker last saw is what the history last names, or the latest message names it. */
  ghost predicate Settled(w: World) {
    && w.worker.Enabled?
    && (|| w.worker.lastName == LastName(w.history)
        || (w.history != [] && w.history[|w.history| - 1].sdkName == LastName(w.history)))
    && (|| w.worker.lastVersion == LastVersion(w.history)
        || (w.history != [] && w.history[|w.history| - 1].sdkVersion == LastVersion(w.history)))
    && (w.worker.lastName == "" || LastName(w.history) != "")
    && (w.worker.lastVersion == "" || LastVersion(w.history) != "")
  }

  lemma CompletionSettles(w: World)
    requires NamesInStep(w) && Settled(w)
    ensures Settled(Act(w, Complete))
  {
    CompletionNames(w);
  }

  lemma SettledAct(w: World, a: Action)
    requires NamesInStep(w) && Settled(w)
    ensures Settled(Act(w, a))
  {
    match a {
      case Complete => CompletionSettles(w);
      case HandOff(n, v) => ReplayNames(n, v, w.history);
      case _ =>
    }
  }

  lemma {:induction false} SettledRun(name: string, version: string, actions: seq<Action>)
    ensures Settled(Run(name, version, actions)) && NamesInStep(Run(name, version, actions))
  {
    NamesStayInStep(name, version, actions);
    if actions != [] {
      SettledRun(name, version, actions[..|actions| - 1]);
      SettledAct(Run(name, version, actions[..|actions| - 1]), actions[|actions| - 1]);
    }
  }

  /** What the worker last saw is what the history last names. */
  ghost predicate UpToDate(w: World) {
    w.worker.Enabled? && w.worker.lastName == LastName(w.history) && w.worker.lastVersion == LastVersion(w.history)
  }

  /** No completion since the worker was shown the latest message, replayed the history or began it. */
  predicate Shown(actions: seq<Action>) {
    actions == [] ||
    var a := actions[|actions| - 1];
    a.Echo? || a.HandOff? || (!a.Complete? && Shown(actions[..|actions| - 1]))
  }

  lemma ShowingBringsUpToDate(w: World, a: Action)
    requires NamesInStep(w) && Settled(w) && (a.Echo? || a.HandOff?)
    ensures UpToDate(Act(w, a))
  {
    if a.HandOff? { ReplayNames(a.name, a.version, w.history); }
  }

  lemma {:induction false} ShownIsUpToDate(name: string, version: string, actions: seq<Action>)
    requires Shown(actions)
    ensures UpToDate(Run(name, version, actions))
  {
    if actions != [] {
      var front, a := actions[..|actions| - 1], actions[|actions| - 1];
      if a.Echo? || a.HandOff? {
        SettledRun(name, version, front);
        ShowingBringsUpToDate(Run(name, version, front), a);
      } else {
        ShownIsUpToDate(name, version, front);
      }
    }
  }

  /**
   Over every run, the message of a worker that has been shown the latest one carries its name exactly
   when that is not empty and not what the history already says, and likewise its version.
   */
  lemma NamedExactlyWhenChanged(name: string, version: string, actions: seq<Action>)
    requires Shown(actions)
    ensures var w := Run(name, version, actions);
            var m := Gathered(w.worker);
            && w.worker.Enabled?
            && m.sdkName == (if w.worker.name != LastName(w.history) then w.worker.name else "")
            && m.sdkVersion == (if w.worker.version != LastVersion(w.history) then w.worker.version else "")
  {
    ShownIsUpToDate(name, version, actions);
  }

  lemma BlankWhenKnown(w: World)
    requires UpToDate(w)
    requires w.worker.name == "" || w.worker.name == LastName(w.history)
    requires w.worker.version == "" || w.worker.version == LastVersion(w.history)
    ensures Gathered(w.worker).sdkName == "" && Gathered(w.worker).sdkVersion == ""
  {
  }

  lemma CompletedAndShown(w: World)
    requires NamesInStep(w) && Settled(w)
    ensures UpToDate(Act(Act(w, Complete), Echo))
  {
    CompletionSettles(w);
    CompletionKeepsNames(w);
    ShowingBringsUpToDate(Act(w, Complete), Echo);
  }

  lemma EchoKeeps(w: World)
    requires w.worker.Enabled?
    ensures var t := Act(w, Echo);
            t.history == w.history && t.worker.Enabled? && t.worker.name == w.worker.name
            && t.worker.version == w.worker.version
  {
  }

  /** Whatever came before, a completion that is shown to its worker leaves name and version of the next one blank. */
  lemma SecondMessageIsBlank(name: string, version: string, actions: seq<Action>)
    ensures var w := Act(Act(Run(name, version, actions), Complete), Echo);
            Gathered(w.worker).sdkName == "" && Gathered(w.worker).sdkVersion == ""
  {
    var w := Run(name, version, actions);
    SettledRun(name, version, actions);
    CompletedAndShown(w);
    CompletionNames(w);
    EchoKeeps(Act(w, Complete));
    BlankWhenKnown(Act(Act(w, Complete), Echo));
  }

  // ----- Use of a single flag -----

  /** A worker may use any flag while it records, whatever it knows. */
  lemma RecordingAllows(name: string, version: string, actions: seq<Action>, f: Flag)
    ensures MayUse(Run(name, version, actions).worker, f, true)
  {
    NamesStayInStep(name, version, actions);
  }

  /** Where the server lacks the capability nothing is ever recorded, used or written. */
  lemma DisabledStaysDisabled(
      name: string, version: string, f: Flag, record: bool, used: set<nat>, md: Option<Metadata>)
    ensures var r := New(false, name, version);
            && !MayUse(r, f, record) && Gathered(r) == Metadata({}, {}, "", "")
            && AddFromComplete(r, md) == r && AddLangUsed(r, used) == r && AfterTryUse(r, f, record) == r
            && WriteAllKnown(r) == r && AfterGather(r) == r
  {
  }
}
