/**
 The command dispatcher: every line is logged first, then split on
 whitespace and routed to `ls`, `cd`, `exit`, `mv`, `tail` or `date`.
 Not-found errors raised by a handler are caught and reported; a line of
 only whitespace fails before the handlers are reached; `exit` ends the
 session with the log as written.
 */
module Shell {
  import opened Strings
  import opened Paths
  import opened Vfs

  /** One record of the session log: who issued which raw line. */
  datatype LogEntry = LogEntry(user: string, command: string)

  /** The shell's state: the user name, the filesystem and the log. */
  datatype Session = Session(user: string, fs: Fs, log: seq<LogEntry>)

  /** What the shell prints, message texts reduced to their kind. */
  datatype Notice =
    | Line(text: string)
    | UnknownCommand(verb: string)
    | CdUsage
    | MvUsage
    | TailUsage
    | Error(error: FsError)
    | Date

  /** Whether the session goes on after a line. `Exited` carries the log as
      it is written out; `Crashed` is the index error a line of only
      whitespace raises outside the handler's error trap. */
  datatype Status = Running | Exited(saved: seq<LogEntry>) | Crashed

  /** The result of executing one line. */
  datatype Step = Step(session: Session, output: seq<Notice>, status: Status)

  /** What a verb handler leaves behind when it does not raise. */
  datatype Handled = Handled(fs: Fs, output: seq<Notice>)

  /** How many lines `tail` shows at most. */
  const TailLines: nat := 10

  /** A new session over an opened archive, with an empty log. */
  function Start(user: string, ms: seq<Member>): (s: Session)
    ensures Valid(s.fs) && s.log == []
  {
    Session(user, Open(ms), [])
  }

  /** The prompt shown before each input line. */
  function Prompt(s: Session): string {
    s.user + "@virtual:" + s.fs.cwd + "$ "
  }

  /** One printed line per name, each followed by `suffix`. */
  function Lines(names: seq<string>, suffix: string): (r: seq<Notice>)
    ensures |r| == |names|
    ensures forall i :: 0 <= i < |names| ==> r[i] == Line(names[i] + suffix)
  {
    seq(|names|, i requires 0 <= i < |names| => Line(names[i] + suffix))
  }

  /** `ls [path]`: directories with a trailing `/`, then files. */
  function Ls(fs: Fs, args: seq<string>): Handled {
    var path := if |args| > 0 then args[0] else fs.cwd;
    var l := ListDir(fs, path);
    Handled(fs, Lines(l.dirs, "/") + Lines(l.files, ""))
  }

  /** `cd <path>`. */
  function Cd(fs: Fs, args: seq<string>): Result<Handled> {
    if |args| == 0 then Ok(Handled(fs, [CdUsage]))
    else
      match ChangeDir(fs, args[0])
      case Ok(fs') => Ok(Handled(fs', []))
      case Err(e) => Err(e)
  }

  /** `mv <src> <dst>`. */
  function Mv(fs: Fs, args: seq<string>): Result<Handled> {
    if |args| != 2 then Ok(Handled(fs, [MvUsage]))
    else
      match Move(fs, args[0], args[1])
      case Ok(fs') => Ok(Handled(fs', []))
      case Err(e) => Err(e)
  }

  /** The lines `tail` prints for a file's text: strip it, split at
      newlines, keep the last ten. */
  function TailOf(content: string): seq<string> {
    LastN(Split(Strip(content), {'\n'}), TailLines)
  }

  /** `tail` shows the last `min(10, n)` of the `n` lines of the stripped
      text, in their original order. */
  lemma TailShowsLastLines(content: string)
    ensures var lines := Split(Strip(content), {'\n'});
            var r := TailOf(content);
            && |r| == (if |lines| < TailLines then |lines| else TailLines)
            && forall i :: 0 <= i < |r| ==> r[i] == lines[|lines| - |r| + i]
  {
    var lines := Split(Strip(content), {'\n'});
    LastNFacts(lines, TailLines);
  }

  /** `tail <path>`. */
  function Tail(fs: Fs, args: seq<string>): Result<Handled> {
    if |args| == 0 then Ok(Handled(fs, [TailUsage]))
    else
      match ReadFile(fs, args[0])
      case Ok(content) => Ok(Handled(fs, Lines(TailOf(content), "")))
      case Err(e) => Err(e)
  }

  /** The error trap around a handler: a raised error is printed and the
      state stays as it was. */
  function Trap(s: Session, h: Result<Handled>): (r: Step)
    ensures r.status == Running
    ensures h.Err? ==> r == Step(s, [Error(h.error)], Running)
  {
    match h
    case Ok(done) => Step(s.(fs := done.fs), done.output, Running)
    case Err(e) => Step(s, [Error(e)], Running)
  }

  /** Routing a verb with its arguments, in the order the dispatcher tests them. */
  function Dispatch(s: Session, cmd: string, args: seq<string>): (r: Step)
    ensures r.session.log == s.log && r.session.user == s.user
    ensures !r.status.Crashed?
    ensures r.status.Exited? <==> cmd == "exit"
    ensures r.status.Exited? ==> r.status.saved == s.log
    ensures r.session.fs.cwd != s.fs.cwd ==> cmd == "cd"
    ensures r.session.fs.files != s.fs.files ==> cmd == "mv"
    ensures Valid(s.fs) ==> Valid(r.session.fs)
  {
    if cmd == "ls" then Trap(s, Ok(Ls(s.fs, args)))
    else if cmd == "cd" then Trap(s, Cd(s.fs, args))
    else if cmd == "exit" then Step(s, [], Exited(s.log))
    else if cmd == "mv" then Trap(s, Mv(s.fs, args))
    else if cmd == "tail" then Trap(s, Tail(s.fs, args))
    else if cmd == "date" then Step(s, [Date], Running)
    else Step(s, [UnknownCommand(cmd)], Running)
  }

  /** `execute_command`: log the raw line, then run it. Only `exit` and a
      line of nothing but whitespace stop the session; only `cd` moves the
      cursor; only `mv` changes the map; the state stays valid. */
  function Execute(s: Session, line: string): (r: Step)
    ensures r.session.log == s.log + [LogEntry(s.user, line)]
    ensures r.session.user == s.user
    ensures r.status.Crashed? <==> |line| > 0 && AllIn(line, Whitespace)
    ensures r.status.Exited? <==> Words(line) != [] && Words(line)[0] == "exit"
    ensures r.status.Exited? ==> r.status.saved == r.session.log
    ensures r.session.fs.cwd != s.fs.cwd ==> Words(line) != [] && Words(line)[0] == "cd"
    ensures r.session.fs.files != s.fs.files ==> Words(line) != [] && Words(line)[0] == "mv"
    ensures Valid(s.fs) ==> Valid(r.session.fs)
  {
    WordsEmpty(line);
    var logged := s.(log := s.log + [LogEntry(s.user, line)]);
    if |line| == 0 then Step(logged, [], Running)
    else
      var parts := Words(line);
      if |parts| == 0 then Step(logged, [], Crashed)
      else Dispatch(logged, parts[0], parts[1..])
  }

  /** Where a run of lines stopped: the state, why, and how many lines ran. */
  datatype Outcome = Outcome(session: Session, status: Status, consumed: nat)

  /** The log records for `lines`, in order. */
  function Entries(user: string, lines: seq<string>): (r: seq<LogEntry>)
    ensures |r| == |lines|
    ensures forall i :: 0 <= i < |lines| ==> r[i] == LogEntry(user, lines[i])
  {
    seq(|lines|, i requires 0 <= i < |lines| => LogEntry(user, lines[i]))
  }

  /** Feeding lines one by one to `execute_command` until one ends the
      session. Each line that ran left exactly one log record, in order; a
      run that stops was stopped by its last line. */
  function Run(s: Session, lines: seq<string>): (r: Outcome)
    ensures r.consumed <= |lines|
    ensures r.session.user == s.user
    ensures r.session.log == s.log + Entries(s.user, lines[..r.consumed])
    ensures r.status.Running? ==> r.consumed == |lines|
    ensures !r.status.Running? ==> r.consumed > 0
    decreases |lines|
  {
    if |lines| == 0 then Outcome(s, Running, 0)
    else
      var st := Execute(s, lines[0]);
      if st.status.Running? then
        var rest := Run(st.session, lines[1..]);
        EntriesStep(s.log, s.user, lines, rest.consumed + 1);
        Outcome(rest.session, rest.status, rest.consumed + 1)
      else
        EntriesStep(s.log, s.user, lines, 1);
        Outcome(st.session, st.status, 1)
  }

  /** The records of the first `n` lines are the first line's record
      followed by the records of the next `n - 1`. */
  lemma EntriesStep(log: seq<LogEntry>, user: string, lines: seq<string>, n: nat)
    requires 0 < n <= |lines|
    ensures log + Entries(user, lines[..n]) == (log + [LogEntry(user, lines[0])]) + Entries(user, lines[1..][..n - 1])
  {
    assert Entries(user, lines[..n]) == [LogEntry(user, lines[0])] + Entries(user, lines[1..][..n - 1]);
  }

  /** A run that stops was stopped by the last line it consumed: a crash by
      a line of nothing but whitespace, an exit that saved the whole log. */
  lemma {:induction false} RunStops(s: Session, lines: seq<string>)
    ensures var r := Run(s, lines);
            && (r.status.Crashed? ==> |lines[r.consumed - 1]| > 0 && AllIn(lines[r.consumed - 1], Whitespace))
            && (r.status.Exited? ==> r.status.saved == r.session.log)
    decreases |lines|
  {
    if |lines| > 0 && Execute(s, lines[0]).status.Running? {
      var st := Execute(s, lines[0]);
      RunStops(st.session, lines[1..]);
      var rest := Run(st.session, lines[1..]);
      if rest.status.Crashed? {
        assert lines[rest.consumed] == lines[1..][rest.consumed - 1];
      }
    }
  }

  /** Running lines keeps a valid filesystem valid. */
  lemma {:induction false} RunKeepsValid(s: Session, lines: seq<string>)
    requires Valid(s.fs)
    ensures Valid(Run(s, lines).session.fs)
    decreases |lines|
  {
    if |lines| > 0 && Execute(s, lines[0]).status.Running? {
      RunKeepsValid(Execute(s, lines[0]).session, lines[1..]);
    }
  }

  /** `run_startup_script`: each script line is stripped and executed. */
  function RunScript(s: Session, script: seq<string>): Outcome {
    Run(s, seq(|script|, i requires 0 <= i < |script| => Strip(script[i])))
  }

  // ----- what the dispatcher promises per verb -----

  /** The state after logging `line`, before any verb runs. */
  function Logged(s: Session, line: string): Session {
    s.(log := s.log + [LogEntry(s.user, line)])
  }

  /** A line with words is logged and then dispatched on its first word. */
  lemma Parsed(s: Session, line: string)
    requires Words(line) != []
    ensures Execute(s, line) == Dispatch(Logged(s, line), Words(line)[0], Words(line)[1..])
  {
    WordsEmpty(line);
  }

  /** `cd` without an argument prints its usage notice and changes nothing. */
  lemma CdUsageNotice(s: Session, line: string)
    requires Words(line) == ["cd"]
    ensures Execute(s, line) == Step(Logged(s, line), [CdUsage], Running)
  {
    Parsed(s, line);
  }

  /** `mv` with other than two arguments prints its usage notice and changes nothing. */
  lemma MvUsageNotice(s: Session, line: string)
    requires |Words(line)| > 0 && Words(line)[0] == "mv" && |Words(line)| != 3
    ensures Execute(s, line) == Step(Logged(s, line), [MvUsage], Running)
  {
    Parsed(s, line);
  }

  /** `tail` without an argument prints its usage notice and changes nothing. */
  lemma TailUsageNotice(s: Session, line: string)
    requires Words(line) == ["tail"]
    ensures Execute(s, line) == Step(Logged(s, line), [TailUsage], Running)
  {
    Parsed(s, line);
  }

  /** An unknown verb is reported by name; nothing changes and the session goes on. */
  lemma UnknownVerbNotice(s: Session, line: string)
    requires |Words(line)| > 0
    requires Words(line)[0] !in {"ls", "cd", "exit", "mv", "tail", "date"}
    ensures Execute(s, line) == Step(Logged(s, line), [UnknownCommand(Words(line)[0])], Running)
  {
    Parsed(s, line);
  }

  /** `cd p` either moves the cursor silently or reports the not-found error
      naming `p` and leaves the state as it was; either way the session goes on. */
  lemma CdCommand(s: Session, line: string)
    requires |Words(line)| >= 2 && Words(line)[0] == "cd"
    ensures var p := Words(line)[1];
            var r := Execute(s, line);
            && r.status == Running
            && (ChangeDir(s.fs, p).Ok? ==> r == Step(Logged(s, line).(fs := ChangeDir(s.fs, p).value), [], Running))
            && (ChangeDir(s.fs, p).Err? ==> r == Step(Logged(s, line), [Error(NoSuchDirectory(p))], Running))
  {
    Parsed(s, line);
  }

  /** `mv a b` either renames silently or reports the not-found error naming
      `a` and leaves the state as it was; either way the session goes on. */
  lemma MvCommand(s: Session, line: string)
    requires |Words(line)| == 3 && Words(line)[0] == "mv"
    ensures var a := Words(line)[1];
            var b := Words(line)[2];
            var r := Execute(s, line);
            && r.status == Running
            && (Move(s.fs, a, b).Ok? ==> r == Step(Logged(s, line).(fs := Move(s.fs, a, b).value), [], Running))
            && (Move(s.fs, a, b).Err? ==> r == Step(Logged(s, line), [Error(NoSuchFileOrDirectory(a))], Running))
  {
    Parsed(s, line);
  }

  /** For text made of lines joined by newlines, neither end blank, `tail`
      shows the last ten lines, or all of them when there are at most ten. */
  lemma TailOfLines(ls: seq<string>)
    requires |ls| > 0
    requires forall i :: 0 <= i < |ls| ==> NoneIn(ls[i], {'\n'})
    requires ls[0] != "" && ls[0][0] !in Whitespace
    requires ls[|ls| - 1] != "" && ls[|ls| - 1][|ls[|ls| - 1]| - 1] !in Whitespace
    ensures |ls| <= TailLines ==> TailOf(Join(ls, '\n')) == ls
    ensures |ls| > TailLines ==> TailOf(Join(ls, '\n')) == ls[|ls| - TailLines..]
  {
    var text := Join(ls, '\n');
    JoinedStripped(ls);
    SplitJoin(ls, '\n', {'\n'});
    assert TailOf(text) == LastN(ls, TailLines);
  }

  /** Lines joined by newlines, neither end blank, are already stripped. */
  lemma JoinedStripped(ls: seq<string>)
    requires |ls| > 0
    requires ls[0] != "" && ls[0][0] !in Whitespace
    requires ls[|ls| - 1] != "" && ls[|ls| - 1][|ls[|ls| - 1]| - 1] !in Whitespace
    ensures Strip(Join(ls, '\n')) == Join(ls, '\n')
  {
    JoinFirst(ls, '\n');
    JoinLast(ls, '\n');
    StripUnchanged(Join(ls, '\n'));
  }

  /** `tail p` prints the last lines of a readable file, or reports the
      not-found error naming `p`; it never changes the filesystem. */
  lemma TailCommand(s: Session, line: string)
    requires |Words(line)| >= 2 && Words(line)[0] == "tail"
    ensures var p := Words(line)[1];
            var r := Execute(s, line);
            && r.session == Logged(s, line)
            && r.status == Running
            && (ReadFile(s.fs, p).Ok? ==> r.output == Lines(TailOf(ReadFile(s.fs, p).value), ""))
            && (ReadFile(s.fs, p).Err? ==> r.output == [Error(NoSuchFile(p))])
  {
    Parsed(s, line);
  }

  /** `ls` prints the sorted directory names, each with `/`, before the
      sorted file names, and changes nothing; with no argument it lists the
      cursor, which is the same as listing `.`. */
  lemma LsCommand(s: Session, line: string)
    requires Valid(s.fs)
    requires |Words(line)| > 0 && Words(line)[0] == "ls"
    ensures var path := if |Words(line)| > 1 then Words(line)[1] else ".";
            var l := ListDir(s.fs, path);
            Execute(s, line) == Step(Logged(s, line), Lines(l.dirs, "/") + Lines(l.files, ""), Running)
  {
    Parsed(s, line);
    if |Words(line)| == 1 {
      CanonicalShape(s.fs.cwd);
      NormPathOfCanonical(s.fs.cwd);
      NormalizeDot(s.fs.cwd);
    }
  }

  /** After a successful `cd p` the prompt shows the normalised `p`. */
  lemma PromptAfterCd(s: Session, line: string)
    requires |Words(line)| >= 2 && Words(line)[0] == "cd"
    requires ChangeDir(s.fs, Words(line)[1]).Ok?
    ensures Prompt(Execute(s, line).session) == s.user + "@virtual:" + Normalize(s.fs.cwd, Words(line)[1]) + "$ "
  {
    Parsed(s, line);
  }

  // ----- what a whole session promises -----

  /** Running two batches of lines one after the other is running them together. */
  lemma {:induction false} RunAppend(s: Session, a: seq<string>, b: seq<string>)
    requires Run(s, a).status.Running?
    ensures Run(s, a + b) == Run(Run(s, a).session, b).(consumed := |a| + Run(Run(s, a).session, b).consumed)
    decreases |a|
  {
    if |a| == 0 {
      assert a + b == b;
    } else {
      var st := Execute(s, a[0]);
      assert (a + b)[0] == a[0];
      assert (a + b)[1..] == a[1..] + b;
      RunAppend(st.session, a[1..], b);
    }
  }

  /** `exit` logs itself and stops with the log as written. */
  lemma ExitStops(s: Session)
    ensures Execute(s, "exit") == Step(Logged(s, "exit"), [], Exited(Logged(s, "exit").log))
  {
    assert Words("exit") == ["exit"] by {
      WordsOfJoin(["exit"]);
    }
    Parsed(s, "exit");
  }

  /** A session whose lines all keep it running and that then receives
      `exit` writes a log with one record per line, the `exit` included, in
      the order issued. */
  lemma ExitWritesEveryLine(s: Session, lines: seq<string>)
    requires Run(s, lines).status.Running?
    ensures Run(s, lines + ["exit"]).status == Exited(s.log + Entries(s.user, lines + ["exit"]))
    ensures |Run(s, lines + ["exit"]).status.saved| == |s.log| + |lines| + 1
  {
    RunAppend(s, lines, ["exit"]);
    var mid := Run(s, lines).session;
    assert mid.log == s.log + Entries(s.user, lines) by {
      assert lines[..|lines|] == lines;
    }
    RunExit(mid);
    EntriesSnoc(s.log, s.user, lines, "exit");
  }

  /** Running just `exit` consumes it and saves the log that includes it. */
  lemma RunExit(s: Session)
    ensures Run(s, ["exit"]) == Outcome(Logged(s, "exit"), Exited(Logged(s, "exit").log), 1)
  {
    ExitStops(s);
  }

  /** One more line adds its record at the end. */
  lemma EntriesSnoc(log: seq<LogEntry>, user: string, lines: seq<string>, line: string)
    ensures log + Entries(user, lines) + [LogEntry(user, line)] == log + Entries(user, lines + [line])
  {
    assert Entries(user, lines) + [LogEntry(user, line)] == Entries(user, lines + [line]);
  }

  /** A startup script never trips the whitespace-only failure: its lines
      are stripped before they run. */
  lemma ScriptNeverCrashes(s: Session, script: seq<string>)
    ensures !RunScript(s, script).status.Crashed?
  {
    var lines := seq(|script|, i requires 0 <= i < |script| => Strip(script[i]));
    RunStops(s, lines);
  }
}
