/** The scheduled scrape: a single-flight run guarded by a lock flag, which
    checks its preconditions in a fixed order, runs the Python scraper and,
    on success, writes both cache files. The host (files, settings, the
    database handle, the process runner) is a parameter; every effect the run
    has is recorded in an effect log, in order. */
module Orchestrator {
  import opened Wrappers
  import opened Scholar
  import Decoder

  /** What the process runner returns for one command: the captured output,
      standard error merged in, and the exit status. */
  datatype CommandResult = CommandResult(output: string, exitCode: int)

  /** The plugin's path constants: the scraper script and the requirements
      file of its Python dependencies. */
  datatype Paths = Paths(script: string, requirements: string)

  /** The host as one run observes it. `readable` holds the paths that are
      regular readable files and `executable` those that are executable; the
      two settings are None when unset; `database` says whether the global
      database handle is set; `install` and `scrape` are what the runner
      returns for the pip command and for the scraper command. */
  datatype Host = Host(
    readable: set<string>,
    executable: set<string>,
    pythonSetting: Option<string>,
    pipSetting: Option<string>,
    database: bool,
    users: seq<string>,
    install: CommandResult,
    scrape: CommandResult)

  /** The strings PHP converts to false. */
  predicate Falsy(s: string) {
    s == "" || s == "0"
  }

  /** A tool path setting that passes the checks: set, truthy, executable. */
  predicate ToolReady(setting: Option<string>, executable: set<string>) {
    setting.Some? && !Falsy(setting.value) && setting.value in executable
  }

  function InstallCommand(pip: string, requirements: string): string {
    pip + " install -r " + requirements
  }

  /** The outcome of the dependency installation step, with the commands it
      handed to the runner. */
  datatype Gate = Gate(ok: bool, commands: seq<string>)

  /** The dependency installation step. It succeeds exactly when the
      requirements file is readable, pip is configured and executable, and
      the install command exits with status 0; the install command runs only
      once the first two checks pass. */
  function InstallRequirements(paths: Paths, host: Host): (g: Gate)
    ensures g.ok <==> && paths.requirements in host.readable
                      && ToolReady(host.pipSetting, host.executable)
                      && host.install.exitCode == 0
    ensures g.commands == [] <==> paths.requirements !in host.readable
                                  || !ToolReady(host.pipSetting, host.executable)
    ensures g.commands != [] ==> g.commands == [InstallCommand(host.pipSetting.value, paths.requirements)]
  {
    if paths.requirements !in host.readable then Gate(false, [])
    else if !ToolReady(host.pipSetting, host.executable) then Gate(false, [])
    else Gate(host.install.exitCode == 0, [InstallCommand(host.pipSetting.value, paths.requirements)])
  }

  /** The scraper's argument string: every id followed by one space, so the
      string ends with a space whenever there is an id. */
  function JoinIds(ids: seq<string>): (s: string)
    ensures ids == [] <==> s == []
    ensures ids != [] ==> s[|s| - 1] == ' '
    ensures |s| >= |ids|
  {
    if ids == [] then "" else ids[0] + " " + JoinIds(ids[1..])
  }

  /** Index of the first space in `s`, or |s| when there is none. */
  function SpaceIndex(s: string): (k: nat)
    ensures k <= |s|
    ensures k < |s| ==> s[k] == ' '
    ensures forall i :: 0 <= i < k ==> s[i] != ' '
  {
    if s == [] || s[0] == ' ' then 0 else 1 + SpaceIndex(s[1..])
  }

  lemma {:induction false} SpaceIndexAfter(head: string, rest: string)
    requires ' ' !in head
    ensures SpaceIndex(head + " " + rest) == |head|
  {
    if head != [] {
      assert (head + " " + rest)[1..] == head[1..] + " " + rest;
      SpaceIndexAfter(head[1..], rest);
    }
  }

  /** The ids a space-terminated argument string holds, read back. */
  function SplitIds(s: string): seq<string>
    decreases |s|
  {
    if s == [] then []
    else
      var k := SpaceIndex(s);
      if k == |s| then [s] else [s[..k]] + SplitIds(s[k + 1..])
  }

  /** The argument string loses nothing: when no id contains a space, reading
      the ids back from it gives the original list, in order. */
  lemma {:induction false} SplitJoinIds(ids: seq<string>)
    requires forall id :: id in ids ==> ' ' !in id
    ensures SplitIds(JoinIds(ids)) == ids
  {
    if ids != [] {
      var s := JoinIds(ids);
      var head := ids[0];
      assert s == head + " " + JoinIds(ids[1..]);
      SpaceIndexAfter(head, JoinIds(ids[1..]));
      assert s[..|head|] == head;
      assert s[|head| + 1..] == JoinIds(ids[1..]);
      SplitJoinIds(ids[1..]);
    }
  }

  /** The scraper command line: interpreter, script, the argument string and
      the redirection of standard error into standard output. */
  function ScrapeCommand(python: string, script: string, ids: seq<string>): string {
    python + " " + script + " " + JoinIds(ids) + " 2>&1"
  }

  /** The ids the plugin currently scrapes: a fixed list in the source. */
  const FixedUsers: seq<string> := ["1iQtvdsAAAAJ", "dAKCYJgAAAAJ"]

  /** The fixed id list never trips the empty-list check, and the argument
      string it gives carries the trailing space. */
  lemma FixedUsersArguments()
    ensures |FixedUsers| > 0
    ensures JoinIds(FixedUsers) == "1iQtvdsAAAAJ dAKCYJgAAAAJ "
  {
    assert FixedUsers[1..][1..] == [];
  }

  /** The precondition checks, each with the reason it reports. */
  datatype Check = ScriptMissing | PythonMissing | DatabaseMissing | RequirementsFailed | NoUsers

  /** The checks in the order the run makes them, each paired with whether it
      passes on this host. */
  function Preconditions(paths: Paths, host: Host): seq<(Check, bool)> {
    [ (ScriptMissing, paths.script in host.readable),
      (PythonMissing, ToolReady(host.pythonSetting, host.executable)),
      (DatabaseMissing, host.database),
      (RequirementsFailed, InstallRequirements(paths, host).ok),
      (NoUsers, |host.users| > 0) ]
  }

  /** The first failing check of an ordered list, if any. */
  function FirstFailure(checks: seq<(Check, bool)>): (c: Option<Check>)
    ensures c.None? <==> forall i :: 0 <= i < |checks| ==> checks[i].1
  {
    if checks == [] then None
    else if !checks[0].1 then Some(checks[0].0)
    else FirstFailure(checks[1..])
  }

  /** One effect of a run on the world, in the order it happens. */
  datatype Effect =
    | AcquireLock
    | RunCommand(command: string)
    | WriteRaw(text: string)
    | WriteSerialized(authors: seq<Author>)
    | ReleaseLock

  /** The state a run reads and changes: the lock flag and the cache files. */
  datatype World = World(lockHeld: bool, store: Store)

  /** What the entry point returns: PHP's false, or a string. */
  datatype Returned = ReturnedFalse | ReturnedString(text: string)

  /** One run: its return value, the world after it, and its effect log. */
  datatype Step = Step(returned: Returned, world: World, effects: seq<Effect>)

  /** The world after one effect. Running a command changes neither the lock
      nor the cache files. */
  function Apply(w: World, e: Effect): World {
    match e
    case AcquireLock => w.(lockHeld := true)
    case ReleaseLock => w.(lockHeld := false)
    case RunCommand(_) => w
    case WriteRaw(t) => w.(store := w.store.(raw := Some(t)))
    case WriteSerialized(a) => w.(store := w.store.(serialized := Some(a)))
  }

  /** The world after an effect log is played from `w`. */
  function Replay(w: World, effects: seq<Effect>): World
    decreases effects
  {
    if effects == [] then w else Replay(Apply(w, effects[0]), effects[1..])
  }

  /** The commands an effect log hands to the runner, in order. */
  function Commands(effects: seq<Effect>): seq<string> {
    if effects == [] then []
    else (if effects[0].RunCommand? then [effects[0].command] else []) + Commands(effects[1..])
  }

  /** Whether an effect log writes a cache file. */
  predicate Writes(effects: seq<Effect>) {
    exists i :: 0 <= i < |effects| && (effects[i].WriteRaw? || effects[i].WriteSerialized?)
  }

  function Runs(commands: seq<string>): (r: seq<Effect>)
    ensures |r| == |commands|
    ensures forall i :: 0 <= i < |r| ==> r[i] == RunCommand(commands[i])
  {
    if commands == [] then [] else [RunCommand(commands[0])] + Runs(commands[1..])
  }

  /** An aborted run: the commands run so far, then the lock released. */
  function Abort(w: World, ran: seq<Effect>, returned: Returned): Step {
    Step(returned, w.(lockHeld := false), [AcquireLock] + ran + [ReleaseLock])
  }

  /** The scheduled entry point. `parse` stands for JSON decoding and the cast
      of each element onto the author class. */
  function StartScraping(paths: Paths, host: Host, parse: string -> Option<seq<Option<Author>>>, w: World): (s: Step)
    ensures w.lockHeld ==> s == Step(ReturnedFalse, w, [])
    ensures !w.lockHeld ==> && |s.effects| >= 2
                            && s.effects[0] == AcquireLock
                            && s.effects[|s.effects| - 1] == ReleaseLock
                            && (forall i :: 0 < i < |s.effects| - 1 ==>
                                  !s.effects[i].AcquireLock? && !s.effects[i].ReleaseLock?)
                            && !s.world.lockHeld
  {
    if w.lockHeld then Step(ReturnedFalse, w, [])
    else if paths.script !in host.readable then Abort(w, [], ReturnedString(""))
    else if !ToolReady(host.pythonSetting, host.executable) then Abort(w, [], ReturnedString(""))
    else if !host.database then Abort(w, [], ReturnedString(""))
    else
      var gate := InstallRequirements(paths, host);
      var installed := Runs(gate.commands);
      if !gate.ok then Abort(w, installed, ReturnedFalse)
      else if |host.users| == 0 then Abort(w, installed, ReturnedString(""))
      else
        var ran := installed + [RunCommand(ScrapeCommand(host.pythonSetting.value, paths.script, host.users))];
        if host.scrape.exitCode != 0 then Abort(w, ran, ReturnedString(""))
        else
          var out := host.scrape.output;
          var authors := Decoder.Decode(parse(out));
          Step(ReturnedString(out),
               World(false, Store(Some(out), Some(authors))),
               [AcquireLock] + ran + [WriteRaw(out), WriteSerialized(authors), ReleaseLock])
  }

  lemma {:induction false} ReplayAppend(w: World, a: seq<Effect>, b: seq<Effect>)
    ensures Replay(w, a + b) == Replay(Replay(w, a), b)
    decreases a
  {
    if a == [] {
      assert a + b == b;
    } else {
      assert (a + b)[0] == a[0];
      assert (a + b)[1..] == a[1..] + b;
      ReplayAppend(Apply(w, a[0]), a[1..], b);
    }
  }

  /** Running commands leaves the world as it was. */
  lemma {:induction false} ReplayCommands(w: World, ran: seq<Effect>)
    requires forall i :: 0 <= i < |ran| ==> ran[i].RunCommand?
    ensures Replay(w, ran) == w
    decreases ran
  {
    if ran != [] {
      ReplayCommands(Apply(w, ran[0]), ran[1..]);
    }
  }

  /** Effects other than taking and releasing the lock leave the flag alone. */
  lemma {:induction false} ReplayKeepsLock(w: World, effects: seq<Effect>)
    requires forall i :: 0 <= i < |effects| ==> !effects[i].AcquireLock? && !effects[i].ReleaseLock?
    ensures Replay(w, effects).lockHeld == w.lockHeld
    decreases effects
  {
    if effects != [] {
      ReplayKeepsLock(Apply(w, effects[0]), effects[1..]);
    }
  }

  lemma {:induction false} CommandsAppend(a: seq<Effect>, b: seq<Effect>)
    ensures Commands(a + b) == Commands(a) + Commands(b)
  {
    if a == [] {
      assert a + b == b;
    } else {
      assert (a + b)[0] == a[0];
      assert (a + b)[1..] == a[1..] + b;
      CommandsAppend(a[1..], b);
    }
  }

  lemma {:induction false} CommandsOfRuns(commands: seq<string>)
    ensures Commands(Runs(commands)) == commands
  {
    if commands != [] {
      assert Runs(commands)[1..] == Runs(commands[1..]);
      CommandsOfRuns(commands[1..]);
    }
  }

  lemma RunsAppendOne(commands: seq<string>, c: string)
    ensures Runs(commands + [c]) == Runs(commands) + [RunCommand(c)]
  {
  }

  /** The commands an aborted run handed to the runner; it writes nothing. */
  lemma AbortCommands(w: World, commands: seq<string>, returned: Returned)
    ensures Commands(Abort(w, Runs(commands), returned).effects) == commands
    ensures !Writes(Abort(w, Runs(commands), returned).effects)
  {
    var ran := Runs(commands);
    CommandsAppend([AcquireLock] + ran, [ReleaseLock]);
    CommandsAppend([AcquireLock], ran);
    CommandsOfRuns(commands);
  }

  /** An aborted run started with the lock free ends in the world it started
      from, which is the world its effect log produces. */
  lemma AbortReplays(w: World, commands: seq<string>, returned: Returned)
    requires !w.lockHeld
    ensures Abort(w, Runs(commands), returned).world == w
    ensures Replay(w, Abort(w, Runs(commands), returned).effects) == w
  {
    var ran := Runs(commands);
    var locked := w.(lockHeld := true);
    ReplayAppend(w, [AcquireLock], ran + [ReleaseLock]);
    ReplayAppend(locked, ran, [ReleaseLock]);
    ReplayCommands(locked, ran);
    assert [AcquireLock] + ran + [ReleaseLock] == [AcquireLock] + (ran + [ReleaseLock]);
  }

  /** The ordered check list fails first exactly where the run's chain of
      tests stops. */
  lemma FirstFailureOfPreconditions(paths: Paths, host: Host)
    ensures FirstFailure(Preconditions(paths, host)) ==
      if paths.script !in host.readable then Some(ScriptMissing)
      else if !ToolReady(host.pythonSetting, host.executable) then Some(PythonMissing)
      else if !host.database then Some(DatabaseMissing)
      else if !InstallRequirements(paths, host).ok then Some(RequirementsFailed)
      else if |host.users| == 0 then Some(NoUsers)
      else None
  {
    var c := Preconditions(paths, host);
    assert c[4..][1..] == [];
    assert FirstFailure(c[4..]) == if c[4].1 then None else Some(c[4].0);
    assert c[3..][1..] == c[4..];
    assert FirstFailure(c[3..]) == if c[3].1 then FirstFailure(c[4..]) else Some(c[3].0);
    assert c[2..][1..] == c[3..];
    assert FirstFailure(c[2..]) == if c[2].1 then FirstFailure(c[3..]) else Some(c[2].0);
    assert c[1..][1..] == c[2..];
    assert FirstFailure(c[1..]) == if c[1].1 then FirstFailure(c[2..]) else Some(c[1].0);
  }

  /** A log that runs no command hands nothing to the runner. */
  lemma {:induction false} CommandsNone(effects: seq<Effect>)
    requires forall i :: 0 <= i < |effects| ==> !effects[i].RunCommand?
    ensures Commands(effects) == []
  {
    if effects != [] {
      CommandsNone(effects[1..]);
    }
  }

  /** The world a run reports is exactly the world its effect log produces:
      the log is a faithful account of everything the run changed. */
  lemma StartScrapingReplays(paths: Paths, host: Host, parse: string -> Option<seq<Option<Author>>>, w: World)
    ensures var s := StartScraping(paths, host, parse, w);
      s.world == Replay(w, s.effects)
  {
    var s := StartScraping(paths, host, parse, w);
    if !w.lockHeld {
      var gate := InstallRequirements(paths, host);
      if paths.script !in host.readable || !ToolReady(host.pythonSetting, host.executable) || !host.database {
        AbortReplays(w, [], s.returned);
      } else if !gate.ok || |host.users| == 0 {
        AbortReplays(w, gate.commands, s.returned);
      } else {
        var scrape := ScrapeCommand(host.pythonSetting.value, paths.script, host.users);
        var ran := Runs(gate.commands) + [RunCommand(scrape)];
        RunsAppendOne(gate.commands, scrape);
        if host.scrape.exitCode != 0 {
          AbortReplays(w, gate.commands + [scrape], s.returned);
        } else {
          var out := host.scrape.output;
          var authors := Decoder.Decode(parse(out));
          var locked := w.(lockHeld := true);
          var tail := [WriteRaw(out), WriteSerialized(authors), ReleaseLock];
          ReplayAppend(w, [AcquireLock], ran + tail);
          ReplayAppend(locked, ran, tail);
          ReplayCommands(locked, ran);
          var w1 := Apply(locked, WriteRaw(out));
          var w2 := Apply(w1, WriteSerialized(authors));
          assert tail[1..][1..][1..] == [];
          assert Replay(w2, tail[2..]) == Apply(w2, ReleaseLock);
          assert Replay(w1, tail[1..]) == Replay(w2, tail[2..]);
          assert Replay(locked, tail) == Replay(w1, tail[1..]);
          assert s.effects == [AcquireLock] + (ran + tail);
        }
      }
    }
  }

  /** The checks run in their fixed order and the first failure decides the
      outcome: a failed dependency installation returns false, any other
      failed check returns the empty string, and a failed check writes no
      cache file, leaves the world as it found it and never runs the scraper.
      When every check passes, the run hands exactly the install command and
      then the scraper command to the runner. */
  lemma ValidationOrder(paths: Paths, host: Host, parse: string -> Option<seq<Option<Author>>>, w: World)
    requires !w.lockHeld
    ensures var s := StartScraping(paths, host, parse, w);
      var failure := FirstFailure(Preconditions(paths, host));
      && (failure == Some(RequirementsFailed) ==> s.returned == ReturnedFalse)
      && (failure.Some? && failure != Some(RequirementsFailed) ==> s.returned == ReturnedString(""))
      && (failure.Some? ==> s.world == w && !Writes(s.effects))
      && (failure.Some? ==>
            Commands(s.effects) == if failure.value in {ScriptMissing, PythonMissing, DatabaseMissing} then []
                                   else InstallRequirements(paths, host).commands)
      && (failure.None? ==>
            && host.pipSetting.Some? && host.pythonSetting.Some?
            && Commands(s.effects) == [ InstallCommand(host.pipSetting.value, paths.requirements),
                                        ScrapeCommand(host.pythonSetting.value, paths.script, host.users) ])
  {
    FirstFailureOfPreconditions(paths, host);
    if FirstFailure(Preconditions(paths, host)).Some? {
      FailedCheckAborts(paths, host, parse, w);
    } else {
      PassedChecksRunBoth(paths, host, parse, w);
    }
  }

  /** A run stopped by a failed check: it returns false after a failed
      dependency installation and the empty string otherwise, writes nothing,
      leaves the world as it found it and runs at most the install command. */
  lemma FailedCheckAborts(paths: Paths, host: Host, parse: string -> Option<seq<Option<Author>>>, w: World)
    requires !w.lockHeld
    requires FirstFailure(Preconditions(paths, host)).Some?
    ensures var s := StartScraping(paths, host, parse, w);
      var failure := FirstFailure(Preconditions(paths, host)).value;
      && s.returned == (if failure == RequirementsFailed then ReturnedFalse else ReturnedString(""))
      && s.world == w && !Writes(s.effects)
      && Commands(s.effects) == if failure in {ScriptMissing, PythonMissing, DatabaseMissing} then []
                                else InstallRequirements(paths, host).commands
  {
    var s := StartScraping(paths, host, parse, w);
    FirstFailureOfPreconditions(paths, host);
    var gate := InstallRequirements(paths, host);
    if paths.script !in host.readable || !ToolReady(host.pythonSetting, host.executable) || !host.database {
      AbortCommands(w, [], s.returned);
      AbortReplays(w, [], s.returned);
    } else {
      AbortCommands(w, gate.commands, s.returned);
      AbortReplays(w, gate.commands, s.returned);
    }
  }

  /** A run that passes every check hands exactly the install command and then
      the scraper command to the runner, whatever the scraper's exit status. */
  lemma PassedChecksRunBoth(paths: Paths, host: Host, parse: string -> Option<seq<Option<Author>>>, w: World)
    requires !w.lockHeld
    requires FirstFailure(Preconditions(paths, host)).None?
    ensures var s := StartScraping(paths, host, parse, w);
      && host.pipSetting.Some? && host.pythonSetting.Some?
      && Commands(s.effects) == [ InstallCommand(host.pipSetting.value, paths.requirements),
                                  ScrapeCommand(host.pythonSetting.value, paths.script, host.users) ]
  {
    var s := StartScraping(paths, host, parse, w);
    FirstFailureOfPreconditions(paths, host);
    var gate := InstallRequirements(paths, host);
    var scrape := ScrapeCommand(host.pythonSetting.value, paths.script, host.users);
    RunsAppendOne(gate.commands, scrape);
    if host.scrape.exitCode != 0 {
      AbortCommands(w, gate.commands + [scrape], s.returned);
    } else {
      var out := host.scrape.output;
      var authors := Decoder.Decode(parse(out));
      var ran := Runs(gate.commands + [scrape]);
      var tail := [WriteRaw(out), WriteSerialized(authors), ReleaseLock];
      CommandsNone(tail);
      CommandsAppend([AcquireLock] + ran, tail);
      CommandsAppend([AcquireLock], ran);
      CommandsOfRuns(gate.commands + [scrape]);
    }
  }

  /** The cache files are written only by a run that passes every check and
      whose scraper exits with status 0. Such a run writes the raw output and
      then the decoded collection, releases the lock last and returns the raw
      output; any other run leaves both cache files as they were, and a
      scraper failure returns the empty string. */
  lemma PersistOnlyOnSuccess(paths: Paths, host: Host, parse: string -> Option<seq<Option<Author>>>, w: World)
    requires !w.lockHeld
    ensures var s := StartScraping(paths, host, parse, w);
      var out := host.scrape.output;
      var passed := FirstFailure(Preconditions(paths, host)).None?;
      var success := passed && host.scrape.exitCode == 0;
      && (Writes(s.effects) <==> success)
      && (!success ==> s.world.store == w.store)
      && (passed && host.scrape.exitCode != 0 ==> s.returned == ReturnedString(""))
      && (success ==> && s.returned == ReturnedString(out)
                      && s.world.store == Store(Some(out), Some(Decoder.Decode(parse(out))))
                      && |s.effects| >= 3
                      && s.effects[|s.effects| - 3..] ==
                           [WriteRaw(out), WriteSerialized(Decoder.Decode(parse(out))), ReleaseLock])
  {
    var s := StartScraping(paths, host, parse, w);
    FirstFailureOfPreconditions(paths, host);
    var gate := InstallRequirements(paths, host);
    if paths.script !in host.readable || !ToolReady(host.pythonSetting, host.executable) || !host.database {
      AbortCommands(w, [], s.returned);
      AbortReplays(w, [], s.returned);
    } else if !gate.ok || |host.users| == 0 {
      AbortCommands(w, gate.commands, s.returned);
      AbortReplays(w, gate.commands, s.returned);
    } else {
      var scrape := ScrapeCommand(host.pythonSetting.value, paths.script, host.users);
      RunsAppendOne(gate.commands, scrape);
      if host.scrape.exitCode != 0 {
        AbortCommands(w, gate.commands + [scrape], s.returned);
        AbortReplays(w, gate.commands + [scrape], s.returned);
      } else {
        assert s.effects[|s.effects| - 3].WriteRaw?;
      }
    }
  }

  /** Single flight: from the moment a run takes the lock until it releases
      it, the lock is held, so a second trigger at any point in between
      returns false at once and has no effect at all. */
  lemma SingleFlight(paths: Paths, host: Host, other: Host,
                     parse: string -> Option<seq<Option<Author>>>, w: World, i: nat)
    requires !w.lockHeld
    requires 1 <= i < |StartScraping(paths, host, parse, w).effects|
    ensures var mid := Replay(w, StartScraping(paths, host, parse, w).effects[..i]);
      && mid.lockHeld
      && StartScraping(paths, other, parse, mid) == Step(ReturnedFalse, mid, [])
  {
    var s := StartScraping(paths, host, parse, w);
    var e := s.effects;
    assert e[..i] == [e[0]] + e[1..i];
    ReplayAppend(w, [e[0]], e[1..i]);
    ReplayKeepsLock(Apply(w, AcquireLock), e[1..i]);
  }
}
