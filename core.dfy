/**
 * The user-mode engine's core: the table of running processes, filled first from a
 * Toolhelp snapshot and then updated on every poll from the batch of process creations and
 * terminations the driver reports.
 *
 * The Toolhelp calls become their outcomes (whether the snapshot could be taken, and the
 * entries `Process32First`/`Process32Next` walk through), and the driver's replies to the
 * polls become a sequence of `Option<DriverMessages>`.
 */
module EngineCore {
  import opened Base
  import Utf8
  import opened DriverIpc

  /** Why `ProcessMonitor::insert` refuses a process. */
  datatype ProcessErrors = DuplicatePid

  /** The running processes, keyed by pid. */
  type Table = map<uint64, ProcessStarted>

  /**
   * What an insert leaves behind: a pid already present keeps its entry; a new pid gets the
   * process.
   */
  function Admit(t: Table, p: ProcessStarted): (r: Table)
    ensures r.Keys == t.Keys + {p.pid}
    ensures forall k :: k in t ==> r[k] == t[k]
    ensures p.pid !in t ==> r[p.pid] == p
  {
    if p.pid in t then t else t[p.pid := p]
  }

  /** `ProcessMonitor`: the pid-keyed table of live processes. */
  class ProcessMonitor {
    var processes: Table

    /** `ProcessMonitor::new()`: no processes. */
    constructor ()
      ensures processes == map[]
    {
      processes := map[];
    }

    /** `insert`: refused with `DuplicatePid` when the pid is already present. */
    method Insert(p: ProcessStarted) returns (r: Result<(), ProcessErrors>)
      modifies this
      ensures r.Err? <==> p.pid in old(processes)
      ensures r.Err? ==> r.error == DuplicatePid
      ensures processes == Admit(old(processes), p)
    {
      if p.pid in processes {
        return Err(DuplicatePid);
      }
      processes := processes[p.pid := p];
      r := Ok(());
    }

    /** `remove_process`: the pid's entry, if any, is gone. */
    method RemoveProcess(pid: uint64)
      modifies this
      ensures processes == old(processes) - {pid}
    {
      processes := processes - {pid};
    }

    /** `extend_processes`: every entry of `other` is added, replacing one with the same pid. */
    method ExtendProcesses(other: ProcessMonitor)
      requires other != this
      modifies this
      ensures processes == old(processes) + other.processes
    {
      processes := processes + other.processes;
    }
  }

  // ---------------------------------------------------------------------------------------
  // One poll: the batch the driver returned applied to the table.

  /** The pids a batch of terminations names. */
  function TerminatedPids(ts: seq<ProcessTerminated>): set<uint64>
  {
    set i | 0 <= i < |ts| :: ts[i].pid
  }

  /** The pids a batch of creations names. */
  function StartedPids(cs: seq<ProcessStarted>): set<uint64>
  {
    set i | 0 <= i < |cs| :: cs[i].pid
  }

  /** The table after `remove_process` for each termination, in order. */
  function RemoveAll(t: Table, ts: seq<ProcessTerminated>): (r: Table)
    ensures r.Keys <= t.Keys
  {
    if ts == [] then t else RemoveAll(t, ts[..|ts| - 1]) - {ts[|ts| - 1].pid}
  }

  /** The table after `insert` for each creation, in order, each refused insert skipped. */
  function InsertAll(t: Table, cs: seq<ProcessStarted>): (r: Table)
    ensures t.Keys <= r.Keys
  {
    if cs == [] then t else Admit(InsertAll(t, cs[..|cs| - 1]), cs[|cs| - 1])
  }

  /**
   * Creation `j` of a batch is a duplicate when its pid is already in the table or an
   * earlier creation of the batch has it.
   */
  predicate Duplicate(t: Table, cs: seq<ProcessStarted>, j: nat)
    requires j < |cs|
  {
    cs[j].pid in t || exists i :: 0 <= i < j && cs[i].pid == cs[j].pid
  }

  /** The creations whose insert fails and is logged: the duplicates, in batch order. */
  function Rejected(t: Table, cs: seq<ProcessStarted>): (r: seq<ProcessStarted>)
    ensures |r| <= |cs|
    ensures forall p :: p in r ==> p in cs
  {
    if cs == [] then []
    else
      var pre := Rejected(t, cs[..|cs| - 1]);
      if Duplicate(t, cs, |cs| - 1) then pre + [cs[|cs| - 1]] else pre
  }

  /** The table after one poll: an empty reply changes nothing; otherwise terminations first. */
  function ApplyBatch(t: Table, response: Option<DriverMessages>): Table
  {
    match response
    case None => t
    case Some(m) => InsertAll(RemoveAll(t, m.processTerminations), m.processCreations)
  }

  /** Removing the terminations one by one removes exactly their pids and changes no other entry. */
  lemma {:induction false} RemoveAllIsDifference(t: Table, ts: seq<ProcessTerminated>)
    ensures RemoveAll(t, ts) == t - TerminatedPids(ts)
  {
    if ts != [] {
      var pre := ts[..|ts| - 1];
      RemoveAllIsDifference(t, pre);
      assert TerminatedPids(ts) == TerminatedPids(pre) + {ts[|ts| - 1].pid} by {
        forall k | k in TerminatedPids(ts)
          ensures k in TerminatedPids(pre) + {ts[|ts| - 1].pid}
        {
          var i :| 0 <= i < |ts| && ts[i].pid == k;
          if i < |ts| - 1 {
            assert pre[i] == ts[i];
          }
        }
        forall k | k in TerminatedPids(pre)
          ensures k in TerminatedPids(ts)
        {
          var i :| 0 <= i < |pre| && pre[i].pid == k;
          assert ts[i] == pre[i];
        }
      }
    }
  }

  /** Inserting a batch adds exactly the batch's pids to the table's. */
  lemma {:induction false} InsertAllKeys(t: Table, cs: seq<ProcessStarted>)
    ensures InsertAll(t, cs).Keys == t.Keys + StartedPids(cs)
  {
    if cs != [] {
      var pre := cs[..|cs| - 1];
      InsertAllKeys(t, pre);
      assert StartedPids(cs) == StartedPids(pre) + {cs[|cs| - 1].pid} by {
        forall k | k in StartedPids(cs)
          ensures k in StartedPids(pre) + {cs[|cs| - 1].pid}
        {
          var i :| 0 <= i < |cs| && cs[i].pid == k;
          if i < |cs| - 1 {
            assert pre[i] == cs[i];
          }
        }
        forall k | k in StartedPids(pre)
          ensures k in StartedPids(cs)
        {
          var i :| 0 <= i < |pre| && pre[i].pid == k;
          assert cs[i] == pre[i];
        }
      }
    }
  }

  /** An entry already in the table survives a batch of inserts unchanged. */
  lemma {:induction false} InsertAllKeepsExisting(t: Table, cs: seq<ProcessStarted>, k: uint64)
    requires k in t
    ensures k in InsertAll(t, cs) && InsertAll(t, cs)[k] == t[k]
  {
    if cs != [] {
      InsertAllKeepsExisting(t, cs[..|cs| - 1], k);
    }
  }

  /** The insert of creation `j` fails exactly when the creation is a duplicate. */
  lemma DuplicateIffPresent(t: Table, cs: seq<ProcessStarted>, j: nat)
    requires j < |cs|
    ensures Duplicate(t, cs, j) <==> cs[j].pid in InsertAll(t, cs[..j])
  {
    InsertAllKeys(t, cs[..j]);
    if cs[j].pid in StartedPids(cs[..j]) {
      var i :| 0 <= i < j && cs[..j][i].pid == cs[j].pid;
      assert cs[i] == cs[..j][i];
    }
    if exists i :: 0 <= i < j && cs[i].pid == cs[j].pid {
      var i :| 0 <= i < j && cs[i].pid == cs[j].pid;
      assert cs[..j][i] == cs[i];
    }
  }

  /**
   * Extending the batch by creation `i`: the table takes one more insert, and the log takes
   * the creation exactly when its pid is already present.
   */
  lemma InsertStep(t: Table, cs: seq<ProcessStarted>, i: nat)
    requires i < |cs|
    ensures InsertAll(t, cs[..i + 1]) == Admit(InsertAll(t, cs[..i]), cs[i])
    ensures cs[i].pid in InsertAll(t, cs[..i]) ==> Rejected(t, cs[..i + 1]) == Rejected(t, cs[..i]) + [cs[i]]
    ensures cs[i].pid !in InsertAll(t, cs[..i]) ==> Rejected(t, cs[..i + 1]) == Rejected(t, cs[..i])
  {
    var next := cs[..i + 1];
    assert next[..i] == cs[..i];
    DuplicateIffPresent(t, next, i);
  }

  /**
   * The first creation of a pid that is not in the table lands in it, whatever inserts
   * before or after it failed: a refused insert does not stop the rest of the batch.
   */
  lemma {:induction false} InsertAllFirstWins(t: Table, cs: seq<ProcessStarted>, j: nat)
    requires j < |cs| && !Duplicate(t, cs, j)
    ensures cs[j].pid in InsertAll(t, cs) && InsertAll(t, cs)[cs[j].pid] == cs[j]
  {
    var pre := cs[..|cs| - 1];
    if j == |cs| - 1 {
      DuplicateIffPresent(t, cs, j);
    } else {
      assert pre[j] == cs[j];
      assert !Duplicate(t, pre, j) by {
        forall i | 0 <= i < j
          ensures pre[i].pid != pre[j].pid
        {
          assert cs[i] == pre[i];
        }
      }
      InsertAllFirstWins(t, pre, j);
    }
  }

  /** After a poll, the table holds exactly the pids not terminated plus the pids created. */
  lemma BatchKeys(t: Table, m: DriverMessages)
    ensures ApplyBatch(t, Some(m)).Keys
      == (t.Keys - TerminatedPids(m.processTerminations)) + StartedPids(m.processCreations)
  {
    RemoveAllIsDifference(t, m.processTerminations);
    InsertAllKeys(RemoveAll(t, m.processTerminations), m.processCreations);
  }

  /**
   * Every creation of a poll whose pid is new or terminated in the same poll, and not
   * created earlier in it, is in the table afterwards with the creation's data.
   */
  lemma BatchCreationApplied(t: Table, m: DriverMessages, j: nat)
    requires j < |m.processCreations|
    requires var c := m.processCreations[j];
      c.pid !in t || c.pid in TerminatedPids(m.processTerminations)
    requires forall i :: 0 <= i < j ==> m.processCreations[i].pid != m.processCreations[j].pid
    ensures var c := m.processCreations[j];
      c.pid in ApplyBatch(t, Some(m)) && ApplyBatch(t, Some(m))[c.pid] == c
  {
    var removed := RemoveAll(t, m.processTerminations);
    RemoveAllIsDifference(t, m.processTerminations);
    InsertAllFirstWins(removed, m.processCreations, j);
  }

  /**
   * Terminations are applied before creations: a pid both terminated and created in one poll
   * is present afterwards with its first creation's data.
   */
  lemma TerminatedThenCreated(t: Table, m: DriverMessages, j: nat)
    requires j < |m.processCreations|
    requires m.processCreations[j].pid in TerminatedPids(m.processTerminations)
    requires forall i :: 0 <= i < j ==> m.processCreations[i].pid != m.processCreations[j].pid
    ensures m.processCreations[j].pid in ApplyBatch(t, Some(m))
    ensures ApplyBatch(t, Some(m))[m.processCreations[j].pid] == m.processCreations[j]
  {
    BatchCreationApplied(t, m, j);
  }

  /** A pid terminated and not created in a poll is gone afterwards. */
  lemma TerminatedIsRemoved(t: Table, m: DriverMessages, k: uint64)
    requires k in TerminatedPids(m.processTerminations) && k !in StartedPids(m.processCreations)
    ensures k !in ApplyBatch(t, Some(m))
  {
    BatchKeys(t, m);
  }

  /** A pid a poll neither terminates nor creates keeps its presence and its entry. */
  lemma UntouchedPreserved(t: Table, m: DriverMessages, k: uint64)
    requires k !in TerminatedPids(m.processTerminations) && k !in StartedPids(m.processCreations)
    ensures k in ApplyBatch(t, Some(m)) <==> k in t
    ensures k in t ==> ApplyBatch(t, Some(m))[k] == t[k]
  {
    BatchKeys(t, m);
    var removed := RemoveAll(t, m.processTerminations);
    RemoveAllIsDifference(t, m.processTerminations);
    if k in t {
      InsertAllKeepsExisting(removed, m.processCreations, k);
    }
  }

  /**
   * The body of the `start_core` loop for one reply of `ioctl_get_driver_messages`: every
   * termination's pid removed, then every creation inserted, a refused insert logged and
   * skipped. `failed` is the log of refused creations.
   */
  method ApplyDriverResponse(processes: ProcessMonitor, response: Option<DriverMessages>)
    returns (failed: seq<ProcessStarted>)
    modifies processes
    ensures processes.processes == ApplyBatch(old(processes.processes), response)
    ensures response.None? ==> processes.processes == old(processes.processes) && failed == []
    ensures response.Some? ==>
      failed == Rejected(RemoveAll(old(processes.processes), response.value.processTerminations),
                         response.value.processCreations)
  {
    failed := [];
    if response.None? {
      return;
    }
    var m := response.value;
    RemoveTerminations(processes, m.processTerminations);
    failed := InsertCreations(processes, m.processCreations);
  }

  /** The first `for` loop of a poll: `remove_process` for each termination, in order. */
  method RemoveTerminations(processes: ProcessMonitor, ts: seq<ProcessTerminated>)
    modifies processes
    ensures processes.processes == RemoveAll(old(processes.processes), ts)
  {
    ghost var before := processes.processes;
    for i := 0 to |ts|
      invariant processes.processes == RemoveAll(before, ts[..i])
    {
      processes.RemoveProcess(ts[i].pid);
      assert ts[..i + 1][..i] == ts[..i];
    }
    assert ts[..|ts|] == ts;
  }

  /**
   * The second `for` loop of a poll: `insert` for each creation, in order; a refused insert
   * is logged (collected in `failed`) and the loop goes on.
   */
  method InsertCreations(processes: ProcessMonitor, cs: seq<ProcessStarted>)
    returns (failed: seq<ProcessStarted>)
    modifies processes
    ensures processes.processes == InsertAll(old(processes.processes), cs)
    ensures failed == Rejected(old(processes.processes), cs)
  {
    ghost var before := processes.processes;
    failed := [];
    for i := 0 to |cs|
      invariant processes.processes == InsertAll(before, cs[..i])
      invariant failed == Rejected(before, cs[..i])
    {
      InsertStep(before, cs, i);
      ghost var cur := processes.processes;
      var r := processes.Insert(cs[i]);
      assert r.Err? <==> cs[i].pid in cur;
      if r.Err? {
        failed := failed + [cs[i]];
      }
    }
    assert cs[..|cs|] == cs;
  }

  // ---------------------------------------------------------------------------------------
  // The snapshot taken before the first poll.

  /** One `PROCESSENTRY32`: `szExeFile` up to its NUL, and the two process ids. */
  datatype ProcessEntry = ProcessEntry(exeFile: seq<byte>, pid: uint32, parentPid: uint32)

  /** The record a snapshot entry with a UTF-8 name becomes; the command line is left empty. */
  function StartedOf(e: ProcessEntry, name: string): (p: ProcessStarted)
    ensures p.pid == e.pid && p.parentPid == e.parentPid && p.imageName == name && p.commandLine == ""
  {
    ProcessStarted(name, "", e.parentPid as uint64, e.pid as uint64)
  }

  /** Entry `i` has a name `to_str` accepts. */
  predicate NameValid(es: seq<ProcessEntry>, i: nat)
    requires i < |es|
  {
    Utf8.Decode(es[i].exeFile).Some?
  }

  /**
   * The table the snapshot loop should build: every entry with a UTF-8 name inserted in
   * enumeration order, an entry whose pid is already present refused, one without a valid
   * name skipped.
   */
  function SnapshotTable(es: seq<ProcessEntry>): (r: Table)
  {
    if es == [] then map[]
    else
      var pre := SnapshotTable(es[..|es| - 1]);
      var e := es[|es| - 1];
      match Utf8.Decode(e.exeFile)
      case None => pre
      case Some(name) => Admit(pre, StartedOf(e, name))
  }

  /** The pids of the entries whose names are valid UTF-8. */
  function ValidPids(es: seq<ProcessEntry>): set<uint64>
  {
    set i | 0 <= i < |es| && NameValid(es, i) :: es[i].pid as uint64
  }

  /** One more entry adds its pid to `ValidPids` exactly when its name is valid. */
  lemma ValidPidsStep(es: seq<ProcessEntry>)
    requires es != []
    ensures var pre := es[..|es| - 1];
      ValidPids(es) == ValidPids(pre) + (if NameValid(es, |es| - 1) then {es[|es| - 1].pid as uint64} else {})
  {
    var pre := es[..|es| - 1];
    forall i | 0 <= i < |pre|
      ensures pre[i] == es[i] && (NameValid(pre, i) <==> NameValid(es, i))
    {
    }
    forall k | k in ValidPids(es)
      ensures k in ValidPids(pre) || (NameValid(es, |es| - 1) && k == es[|es| - 1].pid as uint64)
    {
      var i :| 0 <= i < |es| && NameValid(es, i) && es[i].pid as uint64 == k;
      if i < |pre| {
        assert k in ValidPids(pre);
      }
    }
  }

  /** The snapshot holds exactly the pids of the entries with valid names. */
  lemma {:induction false} SnapshotKeys(es: seq<ProcessEntry>)
    ensures SnapshotTable(es).Keys == ValidPids(es)
  {
    if es != [] {
      SnapshotKeys(es[..|es| - 1]);
      ValidPidsStep(es);
    }
  }

  /**
   * A pid listed more than once keeps its first entry with a valid name: later duplicates
   * are refused, and enumeration goes on past them.
   */
  lemma {:induction false} SnapshotFirstWins(es: seq<ProcessEntry>, j: nat)
    requires j < |es| && NameValid(es, j)
    requires forall i :: 0 <= i < j && NameValid(es, i) ==> es[i].pid != es[j].pid
    ensures es[j].pid in SnapshotTable(es)
    ensures SnapshotTable(es)[es[j].pid] == StartedOf(es[j], Utf8.Decode(es[j].exeFile).value)
  {
    var pre := es[..|es| - 1];
    if j == |es| - 1 {
      SnapshotKeys(pre);
      assert es[j].pid as uint64 !in ValidPids(pre);
    } else {
      assert pre[j] == es[j];
      forall i | 0 <= i < j && NameValid(pre, i)
        ensures pre[i].pid != pre[j].pid
      {
        assert pre[i] == es[i];
      }
      SnapshotFirstWins(pre, j);
    }
  }

  /**
   * One pass of the snapshot loop as written, from entry `pos` with table `t`: a name that
   * `to_str` rejects is logged and the `continue` jumps back to the top of the loop without
   * calling `Process32Next`, so the next pass reads the same entry.
   */
  function SnapshotPassAsWritten(es: seq<ProcessEntry>, pos: nat, t: Table): (r: (nat, Table))
    requires pos < |es|
    ensures r.0 == pos <==> !NameValid(es, pos)
    ensures r.0 == pos + 1 <==> NameValid(es, pos)
  {
    match Utf8.Decode(es[pos].exeFile)
    case None => (pos, t)
    case Some(name) => (pos + 1, Admit(t, StartedOf(es[pos], name)))
  }

  /**
   * `passes` iterations of the loop as written; the loop ends when `Process32Next` finds no
   * entry after the last.
   */
  function SnapshotRunAsWritten(es: seq<ProcessEntry>, pos: nat, t: Table, passes: nat): (r: (nat, Table))
    requires pos <= |es|
    ensures r.0 <= |es|
    decreases passes
  {
    if passes == 0 || pos == |es| then (pos, t)
    else
      var next := SnapshotPassAsWritten(es, pos, t);
      SnapshotRunAsWritten(es, next.0, next.1, passes - 1)
  }

  /**
   * As written, an entry whose name is not UTF-8 stops the enumeration for good: however many
   * passes run, the loop is still at that entry with the same table, and never finishes.
   */
  lemma {:induction false} SnapshotAsWrittenHangs(es: seq<ProcessEntry>, pos: nat, t: Table, passes: nat)
    requires pos < |es| && !NameValid(es, pos)
    ensures SnapshotRunAsWritten(es, pos, t, passes) == (pos, t)
    decreases passes
  {
    if passes > 0 {
      SnapshotAsWrittenHangs(es, pos, t, passes - 1);
    }
  }

  /** A single entry named with the byte 0xFF, never valid UTF-8, is such an input. */
  lemma InvalidNameHangs(passes: nat)
    ensures var es := [ProcessEntry([0xFF], 4, 0)];
      SnapshotRunAsWritten(es, 0, map[], passes) == (0, map[])
  {
    var es := [ProcessEntry([0xFF], 4, 0)];
    assert Utf8.DecodeFirst(es[0].exeFile).None?;
    SnapshotAsWrittenHangs(es, 0, map[], passes);
  }

  /**
   * When every name is valid UTF-8 the loop as written visits each entry once, in order, and
   * builds exactly `SnapshotTable(es)`: the two agree wherever the `continue` is never taken.
   */
  lemma SnapshotAsWrittenOnValidNames(es: seq<ProcessEntry>)
    requires forall i :: 0 <= i < |es| ==> NameValid(es, i)
    ensures SnapshotRunAsWritten(es, 0, map[], |es|) == (|es|, SnapshotTable(es))
  {
    assert es[..0] == [];
    SnapshotRunFrom(es, 0);
  }

  /** From position `pos`, holding the table of the entries before it, the run finishes the table. */
  lemma {:induction false} SnapshotRunFrom(es: seq<ProcessEntry>, pos: nat)
    requires pos <= |es|
    requires forall i :: 0 <= i < |es| ==> NameValid(es, i)
    ensures SnapshotRunAsWritten(es, pos, SnapshotTable(es[..pos]), |es| - pos) == (|es|, SnapshotTable(es))
    decreases |es| - pos
  {
    if pos == |es| {
      assert es[..pos] == es;
    } else {
      assert NameValid(es, pos);
      var name := Utf8.Decode(es[pos].exeFile).value;
      var t := Admit(SnapshotTable(es[..pos]), StartedOf(es[pos], name));
      assert es[..pos + 1][..pos] == es[..pos];
      assert SnapshotTable(es[..pos + 1]) == t;
      assert SnapshotPassAsWritten(es, pos, SnapshotTable(es[..pos])) == (pos + 1, t);
      SnapshotRunFrom(es, pos + 1);
    }
  }

  /**
   * `snapshot_all_processes` with the rejected name skipped (the evident intent of "continue
   * enumerating"): a snapshot that cannot be taken panics; otherwise every entry is visited
   * once and the monitor holds `SnapshotTable(es)`.
   */
  method SnapshotAllProcesses(snapshotOk: bool, es: seq<ProcessEntry>)
    returns (exit: Exit, allProcesses: ProcessMonitor)
    ensures exit == Panicked <==> !snapshotOk
    ensures fresh(allProcesses)
    ensures exit == Returned ==> allProcesses.processes == SnapshotTable(es)
  {
    allProcesses := new ProcessMonitor();
    if !snapshotOk {
      return Panicked, allProcesses;
    }
    var pos := 0;
    while pos < |es|
      invariant pos <= |es|
      invariant allProcesses.processes == SnapshotTable(es[..pos])
    {
      var e := es[pos];
      var name := Utf8.Decode(e.exeFile);
      if name.Some? {
        var process := StartedOf(e, name.value);
        var _ := allProcesses.Insert(process);
      }
      assert es[..pos + 1][..pos] == es[..pos];
      pos := pos + 1;
    }
    assert es[..pos] == es;
    exit := Returned;
  }

  // ---------------------------------------------------------------------------------------
  // `start_core`: the snapshot, then the polling loop.

  /** The table after applying the replies of consecutive polls, in order. */
  function ApplyAll(t: Table, responses: seq<Option<DriverMessages>>): Table
  {
    if responses == [] then t
    else ApplyBatch(ApplyAll(t, responses[..|responses| - 1]), responses[|responses| - 1])
  }

  /** Polls that got no reply leave the table as it was. */
  lemma {:induction false} EmptyPollsKeepTable(t: Table, responses: seq<Option<DriverMessages>>)
    requires forall i :: 0 <= i < |responses| ==> responses[i].None?
    ensures ApplyAll(t, responses) == t
  {
    if responses != [] {
      EmptyPollsKeepTable(t, responses[..|responses| - 1]);
    }
  }

  /**
   * `start_core` up to its `|responses|`-th poll: the snapshot extends a new, empty table,
   * then each poll's reply is applied. The loop itself never ends; the sleep between polls is
   * not modelled. The snapshot is the corrected `SnapshotAllProcesses`; on entries whose names
   * are all UTF-8 it builds the same table as the loop as written
   * (`SnapshotAsWrittenOnValidNames`).
   */
  method StartCore(snapshotOk: bool, es: seq<ProcessEntry>, responses: seq<Option<DriverMessages>>)
    returns (exit: Exit, table: Table)
    ensures exit == Panicked <==> !snapshotOk
    ensures exit == Returned ==> table == ApplyAll(SnapshotTable(es), responses)
  {
    var processes := new ProcessMonitor();
    var snapshotExit, snapshotProcesses := SnapshotAllProcesses(snapshotOk, es);
    if snapshotExit == Panicked {
      return Panicked, processes.processes;
    }
    processes.ExtendProcesses(snapshotProcesses);
    assert processes.processes == SnapshotTable(es);
    for n := 0 to |responses|
      invariant processes.processes == ApplyAll(SnapshotTable(es), responses[..n])
    {
      var _ := ApplyDriverResponse(processes, responses[n]);
      assert responses[..n + 1][..n] == responses[..n];
    }
    assert responses[..|responses|] == responses;
    return Returned, processes.processes;
  }
}
