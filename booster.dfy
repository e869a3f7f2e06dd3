/** The heavy-process triage of gui/performance_panel.py. Killing a process,
    lowering its priority and starting the temp-file cleanup are not performed
    here: each is emitted as an `Action`, in the order the panel would issue it. */
module Booster {
  import opened Wrappers
  import opened Text

  /** One candidate from the heavy-process list; `name` and `cpu` may be null. */
  datatype Process = Process(pid: int, name: Option<string>, cpu: Option<real>)

  datatype SkipReason = Protected | OwnProcess | SafeName

  datatype Action =
    | Skipped(pid: int, reason: SkipReason)
    | Killed(pid: int)
    | PriorityLowered(pid: int)
    | TempFilesCleared

  const FastMode: string := "fast"
  const DeepMode: string := "deep"
  const ExtremeMode: string := "extreme"

  /** CPU figures above which fast and deep mode kill. */
  const FastKillCpu: real := 85.0
  const DeepKillCpu: real := 70.0

  /** Name fragments the booster never kills (the application itself and its interpreter). */
  const SafeNames: seq<string> := ["coresense", "python", "pythonw", "py", "main"]

  /** Name fragments extreme mode kills. */
  const KillNames: seq<string> := ["chrome", "firefox", "edge", "code"]

  /** `p['name'] or ""`. */
  function NameOf(p: Process): (r: string)
    ensures p.name.None? ==> r == ""
    ensures p.name.Some? ==> r == p.name.value
  {
    p.name.GetOr("")
  }

  /** `p['cpu'] or 0.0`. */
  function CpuOf(p: Process): (r: real)
    ensures p.cpu.None? ==> r == 0.0
    ensures p.cpu.Some? ==> r == p.cpu.value
  {
    p.cpu.GetOr(0.0)
  }

  /** The system processes both loops always skip, judged on the lower-cased name:
      `pid in (0, 4) or name in ("system", "system idle process")`. */
  predicate IsProtected(pid: int, lowerName: string) {
    pid == 0 || pid == 4 || lowerName == "system" || lowerName == "system idle process"
  }

  /** `any(s in name for s in needles)`, trying the fragments in order. */
  predicate ContainsAny(name: string, needles: seq<string>)
    ensures ContainsAny(name, needles) <==> exists k :: 0 <= k < |needles| && Contains(name, needles[k])
  {
    needles != [] && (Contains(name, needles[0]) || ContainsAny(name, needles[1..]))
  }

  // ---------------------------------------------------------------------------
  // run_booster

  /** The decision `run_booster` takes for one candidate: the protected system
      processes first, then the panel's own process, then the safe names, and
      every other candidate is killed. */
  function BoosterAction(p: Process, selfPid: int): (a: Action)
    ensures a.Skipped? || a.Killed?
    ensures a.pid == p.pid
  {
    var name := Lower(NameOf(p));
    if IsProtected(p.pid, name) then Skipped(p.pid, Protected)
    else if p.pid == selfPid then Skipped(p.pid, OwnProcess)
    else if ContainsAny(name, SafeNames) then Skipped(p.pid, SafeName)
    else Killed(p.pid)
  }

  /** `run_booster`: one decision per candidate, in input order, then the temp-file
      cleanup in deep mode. */
  method RunBooster(heavy: seq<Process>, selfPid: int, mode: string) returns (actions: seq<Action>)
    ensures |actions| == |heavy| + (if mode == DeepMode then 1 else 0)
    ensures forall i :: 0 <= i < |heavy| ==> actions[i] == BoosterAction(heavy[i], selfPid)
    ensures mode == DeepMode ==> actions[|heavy|] == TempFilesCleared
    ensures KilledPids(actions) == KillTargets(heavy, selfPid)
  {
    actions := [];
    for i := 0 to |heavy|
      invariant |actions| == i
      invariant forall j :: 0 <= j < i ==> actions[j] == BoosterAction(heavy[j], selfPid)
    {
      actions := actions + [BoosterAction(heavy[i], selfPid)];
    }
    RunBoosterKillsInOrder(heavy, selfPid, actions);
    if mode == DeepMode {
      KilledPidsSkipsOther(actions, TempFilesCleared);
      actions := actions + [TempFilesCleared];
    }
  }

  /** A candidate is never killed when its pid is 0 or 4, its lower-cased name is a
      system name, it is the panel's own process, or its name holds a safe fragment;
      every other candidate is killed. */
  lemma BoosterKillRule(p: Process, selfPid: int)
    ensures var name := Lower(NameOf(p));
      BoosterAction(p, selfPid).Killed? <==>
        && p.pid != 0 && p.pid != 4
        && name != "system" && name != "system idle process"
        && p.pid != selfPid
        && forall k :: 0 <= k < |SafeNames| ==> !Contains(name, SafeNames[k])
  {
  }

  /** "python" and "pythonw" already contain "py": the safe list amounts to three fragments. */
  lemma SafeNamesReduce(name: string)
    ensures ContainsAny(name, SafeNames) <==>
      Contains(name, "coresense") || Contains(name, "py") || Contains(name, "main")
  {
    assert SafeNames[3] == "py";
    assert Contains("python", "py") by { assert StartsWith("python", "py"); }
    assert Contains("pythonw", "py") by { assert StartsWith("pythonw", "py"); }
    if Contains(name, "python") {
      ContainsTransitive(name, "python", "py");
    }
    if Contains(name, "pythonw") {
      ContainsTransitive(name, "pythonw", "py");
    }
    if Contains(name, "main") {
      assert SafeNames[4] == "main";
    }
    if Contains(name, "coresense") {
      assert SafeNames[0] == "coresense";
    }
  }

  /** The pids of the killed candidates, in order. */
  function KilledPids(actions: seq<Action>): seq<int> {
    if actions == [] then []
    else (if actions[0].Killed? then [actions[0].pid] else []) + KilledPids(actions[1..])
  }

  /** Appending an action that kills nothing leaves the killed pids as they were. */
  lemma {:induction false} KilledPidsSkipsOther(actions: seq<Action>, a: Action)
    requires !a.Killed?
    ensures KilledPids(actions + [a]) == KilledPids(actions)
  {
    if actions == [] {
      assert KilledPids([a]) == [] + KilledPids([a][1..]);
      assert [a][1..] == [];
    } else {
      assert (actions + [a])[1..] == actions[1..] + [a];
      KilledPidsSkipsOther(actions[1..], a);
    }
  }

  /** Reference definition: the pids `run_booster` should kill, in input order. */
  function KillTargets(heavy: seq<Process>, selfPid: int): seq<int> {
    if heavy == [] then []
    else
      var p := heavy[0];
      var name := Lower(NameOf(p));
      var guarded := IsProtected(p.pid, name) || p.pid == selfPid || ContainsAny(name, SafeNames);
      (if guarded then [] else [p.pid]) + KillTargets(heavy[1..], selfPid)
  }

  /** The decisions `run_booster` records kill every unguarded candidate exactly once,
      in input order, and nothing else. */
  lemma {:induction false} RunBoosterKillsInOrder(heavy: seq<Process>, selfPid: int, actions: seq<Action>)
    requires |actions| == |heavy|
    requires forall i :: 0 <= i < |heavy| ==> actions[i] == BoosterAction(heavy[i], selfPid)
    ensures KilledPids(actions) == KillTargets(heavy, selfPid)
  {
    if heavy != [] {
      RunBoosterKillsInOrder(heavy[1..], selfPid, actions[1..]);
    }
  }

  // ---------------------------------------------------------------------------
  // handle_processes

  /** What `handle_processes` issues for one candidate, in issue order. */
  function HandleActions(p: Process, selfPid: int, mode: string): (r: seq<Action>)
    ensures forall i :: 0 <= i < |r| ==> !r[i].TempFilesCleared? && r[i].pid == p.pid
  {
    var name := NameOf(p);
    var cpu := CpuOf(p);
    if IsProtected(p.pid, Lower(name)) then [Skipped(p.pid, Protected)]
    else if mode == FastMode then
      [PriorityLowered(p.pid)] + (if cpu > FastKillCpu then [Killed(p.pid)] else [])
    else if mode == DeepMode then
      [PriorityLowered(p.pid)] + (if cpu > DeepKillCpu then [Killed(p.pid)] else [])
    else if mode == ExtremeMode then
      if p.pid == selfPid then [Skipped(p.pid, OwnProcess)]
      else if ContainsAny(Lower(name), KillNames) then [Killed(p.pid)]
      else [PriorityLowered(p.pid)]
    else []
  }

  /** Everything `handle_processes` issues for the whole list. */
  function HandlePlan(heavy: seq<Process>, selfPid: int, mode: string): (r: seq<Action>)
    ensures |r| <= 2 * |heavy|
    ensures forall i :: 0 <= i < |r| ==> !r[i].TempFilesCleared?
  {
    if heavy == [] then []
    else HandleActions(heavy[0], selfPid, mode) + HandlePlan(heavy[1..], selfPid, mode)
  }

  /** `handle_processes`. */
  method HandleProcesses(heavy: seq<Process>, selfPid: int, mode: string) returns (actions: seq<Action>)
    ensures actions == HandlePlan(heavy, selfPid, mode)
  {
    actions := [];
    for i := 0 to |heavy|
      invariant actions + HandlePlan(heavy[i..], selfPid, mode) == HandlePlan(heavy, selfPid, mode)
    {
      var step := HandleActions(heavy[i], selfPid, mode);
      assert heavy[i..][1..] == heavy[i + 1..];
      assert HandlePlan(heavy[i..], selfPid, mode) == step + HandlePlan(heavy[i + 1..], selfPid, mode);
      assert actions + step + HandlePlan(heavy[i + 1..], selfPid, mode)
        == actions + (step + HandlePlan(heavy[i + 1..], selfPid, mode));
      actions := actions + step;
    }
    assert heavy[|heavy|..] == [];
  }

  /** An action is in the plan exactly when some candidate issues it. */
  lemma {:induction false} ActionInPlan(heavy: seq<Process>, selfPid: int, mode: string, a: Action)
    ensures a in HandlePlan(heavy, selfPid, mode) <==>
      exists i :: 0 <= i < |heavy| && a in HandleActions(heavy[i], selfPid, mode)
  {
    if heavy != [] {
      ActionInPlan(heavy[1..], selfPid, mode, a);
      assert forall i :: 0 < i < |heavy| ==> heavy[1..][i - 1] == heavy[i];
    }
  }

  /** Fast mode: every unprotected candidate has its priority lowered first, and is
      then killed exactly when its cpu figure is above 85. */
  lemma FastModeRule(p: Process, selfPid: int)
    requires !IsProtected(p.pid, Lower(NameOf(p)))
    ensures var r := HandleActions(p, selfPid, FastMode);
      r[0] == PriorityLowered(p.pid) && (Killed(p.pid) in r <==> CpuOf(p) > FastKillCpu)
  {
  }

  /** Deep mode: the same with the threshold 70. */
  lemma DeepModeRule(p: Process, selfPid: int)
    requires !IsProtected(p.pid, Lower(NameOf(p)))
    ensures var r := HandleActions(p, selfPid, DeepMode);
      r[0] == PriorityLowered(p.pid) && (Killed(p.pid) in r <==> CpuOf(p) > DeepKillCpu)
  {
  }

  /** The pids fast mode kills: the unprotected candidates above 85. */
  lemma {:induction false} FastModeKills(heavy: seq<Process>, selfPid: int, x: int)
    ensures Killed(x) in HandlePlan(heavy, selfPid, FastMode) <==>
      exists i :: 0 <= i < |heavy| && heavy[i].pid == x
        && !IsProtected(heavy[i].pid, Lower(NameOf(heavy[i]))) && CpuOf(heavy[i]) > FastKillCpu
  {
    ActionInPlan(heavy, selfPid, FastMode, Killed(x));
  }

  /** The pids deep mode kills: the unprotected candidates above 70. */
  lemma {:induction false} DeepModeKills(heavy: seq<Process>, selfPid: int, x: int)
    ensures Killed(x) in HandlePlan(heavy, selfPid, DeepMode) <==>
      exists i :: 0 <= i < |heavy| && heavy[i].pid == x
        && !IsProtected(heavy[i].pid, Lower(NameOf(heavy[i]))) && CpuOf(heavy[i]) > DeepKillCpu
  {
    ActionInPlan(heavy, selfPid, DeepMode, Killed(x));
  }

  /** Fast and deep mode lower the priority of exactly the unprotected candidates. */
  lemma {:induction false} LoweredInFastAndDeep(heavy: seq<Process>, selfPid: int, mode: string, x: int)
    requires mode == FastMode || mode == DeepMode
    ensures PriorityLowered(x) in HandlePlan(heavy, selfPid, mode) <==>
      exists i :: 0 <= i < |heavy| && heavy[i].pid == x
        && !IsProtected(heavy[i].pid, Lower(NameOf(heavy[i])))
  {
    ActionInPlan(heavy, selfPid, mode, PriorityLowered(x));
  }

  /** Extreme mode kills exactly the unprotected candidates, other than the panel's
      own process, whose lower-cased name holds a browser or editor fragment. */
  lemma {:induction false} ExtremeModeKills(heavy: seq<Process>, selfPid: int, x: int)
    ensures Killed(x) in HandlePlan(heavy, selfPid, ExtremeMode) <==>
      exists i :: 0 <= i < |heavy| && heavy[i].pid == x
        && !IsProtected(heavy[i].pid, Lower(NameOf(heavy[i])))
        && heavy[i].pid != selfPid
        && ContainsAny(Lower(NameOf(heavy[i])), KillNames)
  {
    ActionInPlan(heavy, selfPid, ExtremeMode, Killed(x));
  }

  /** Extreme mode lowers the priority of the other unprotected candidates. */
  lemma {:induction false} ExtremeModeLowers(heavy: seq<Process>, selfPid: int, x: int)
    ensures PriorityLowered(x) in HandlePlan(heavy, selfPid, ExtremeMode) <==>
      exists i :: 0 <= i < |heavy| && heavy[i].pid == x
        && !IsProtected(heavy[i].pid, Lower(NameOf(heavy[i])))
        && heavy[i].pid != selfPid
        && !ContainsAny(Lower(NameOf(heavy[i])), KillNames)
  {
    ActionInPlan(heavy, selfPid, ExtremeMode, PriorityLowered(x));
  }

  /** Pids 0 and 4 are never killed in any mode, and extreme mode never kills the
      panel's own process. */
  lemma {:induction false} HandleNeverKillsProtected(heavy: seq<Process>, selfPid: int, mode: string)
    ensures Killed(0) !in HandlePlan(heavy, selfPid, mode)
    ensures Killed(4) !in HandlePlan(heavy, selfPid, mode)
    ensures Killed(selfPid) !in HandlePlan(heavy, selfPid, ExtremeMode)
  {
    ActionInPlan(heavy, selfPid, mode, Killed(0));
    ActionInPlan(heavy, selfPid, mode, Killed(4));
    ActionInPlan(heavy, selfPid, ExtremeMode, Killed(selfPid));
  }

  /** Fast and deep mode have no own-process check: the panel's own process, when
      unprotected and above the mode's threshold, is killed like any other candidate. */
  lemma FastDeepMayKillSelf(p: Process, selfPid: int, mode: string)
    requires p.pid == selfPid && !IsProtected(p.pid, Lower(NameOf(p)))
    requires (mode == FastMode && CpuOf(p) > FastKillCpu) || (mode == DeepMode && CpuOf(p) > DeepKillCpu)
    ensures Killed(selfPid) in HandleActions(p, selfPid, mode)
  {
  }

  /** A mode other than the three issues nothing but the protected skips. */
  lemma {:induction false} UnknownModeOnlySkips(heavy: seq<Process>, selfPid: int, mode: string, a: Action)
    requires mode != FastMode && mode != DeepMode && mode != ExtremeMode
    requires a in HandlePlan(heavy, selfPid, mode)
    ensures a.Skipped? && a.reason == Protected
  {
    ActionInPlan(heavy, selfPid, mode, a);
  }

  // ---------------------------------------------------------------------------
  // Boost history

  /** At most this many history entries are kept. */
  const HistoryLimit: nat := 30

  /** One boost run as recorded in the history: time stamp, mode and the CPU and
      memory figures before and after. */
  datatype HistoryEntry = HistoryEntry(time: string, mode: string, cpuBefore: real, cpuAfter: real,
                                       memBefore: real, memAfter: real)

  function Min(a: int, b: int): int {
    if a < b then a else b
  }

  /** The history after recording `entry`: `hist.insert(0, entry)`, then `hist[:30]`. */
  function Recorded(hist: seq<HistoryEntry>, entry: HistoryEntry): (r: seq<HistoryEntry>)
    ensures |r| == Min(|hist| + 1, HistoryLimit)
    ensures r[0] == entry
    ensures forall i :: 0 < i < |r| ==> r[i] == hist[i - 1]
  {
    ([entry] + hist)[..Min(|hist| + 1, HistoryLimit)]
  }

  /** The list update of `_save_history_entry`. */
  method SaveHistoryEntry(hist: seq<HistoryEntry>, entry: HistoryEntry) returns (r: seq<HistoryEntry>)
    ensures |r| == Min(|hist| + 1, HistoryLimit)
    ensures r[0] == entry
    ensures forall i :: 0 < i < |r| ==> r[i] == hist[i - 1]
    ensures r == Recorded(hist, entry)
  {
    var h := [entry] + hist;
    h := h[..Min(|h|, HistoryLimit)];
    r := h;
  }

  function Reversed(s: seq<HistoryEntry>): (r: seq<HistoryEntry>)
    ensures |r| == |s|
  {
    if s == [] then [] else Reversed(s[1..]) + [s[0]]
  }

  /** The history after recording `entries`, oldest first. */
  function RecordAll(hist: seq<HistoryEntry>, entries: seq<HistoryEntry>): seq<HistoryEntry>
    decreases |entries|
  {
    if entries == [] then hist else RecordAll(Recorded(hist, entries[0]), entries[1..])
  }

  /** Truncating the tail first does not matter when the cut falls inside it. */
  lemma PrefixOfAppend(x: seq<HistoryEntry>, y: seq<HistoryEntry>, m: nat, n: nat)
    requires m <= |y| && n <= |x| + m
    ensures (x + y[..m])[..n] == (x + y)[..n]
  {
    assert forall i :: 0 <= i < n ==> (x + y[..m])[i] == (x + y)[i];
  }

  /** After any sequence of boosts the history holds the newest entries first, then
      the older history, cut to 30 entries. */
  lemma {:induction false} RecordAllNewestFirst(hist: seq<HistoryEntry>, entries: seq<HistoryEntry>)
    requires |hist| <= HistoryLimit || entries != []
    ensures RecordAll(hist, entries) == (Reversed(entries) + hist)[..Min(|entries| + |hist|, HistoryLimit)]
    decreases |entries|
  {
    if entries == [] {
      assert Reversed(entries) + hist == hist;
    } else {
      var e := entries[0];
      var rest := entries[1..];
      var h1 := Recorded(hist, e);
      RecordAllNewestFirst(h1, rest);
      var m := Min(|hist| + 1, HistoryLimit);
      PrefixOfAppend(Reversed(rest), [e] + hist, m, Min(|rest| + m, HistoryLimit));
      assert Reversed(entries) + hist == Reversed(rest) + ([e] + hist);
    }
  }

}
