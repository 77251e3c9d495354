/** How one log message reaches several files: severities, the loop of AsyncLoggingManager::Append
    and the loop of LogMessage::Flush. */
module LogFanOut {
  import opened AsyncLogging
  import opened Wrappers
  import P = AsyncLoggingProtocol

  datatype Severity = TRACE | DEBUG | INFO | WARN | ERROR | FATAL

  const LOG_FILE_SEVERITIES: nat := 3

  /** GetLogFileSeverityIndex */
  function FileIndex(severity: Severity): (index: nat)
    ensures index < LOG_FILE_SEVERITIES
  {
    match severity
    case WARN => 1
    case ERROR => 2
    case FATAL => 2
    case _ => 0
  }

  /** g_log_file_severity_names */
  function FileName(index: nat): string
    requires index < LOG_FILE_SEVERITIES
  {
    ["INFO", "WARN", "ERROR"][index]
  }

  /** GetLogSeverityType */
  function SeverityOf(name: string): Severity {
    if name == "TRACE" || name == "DEBUG" || name == "INFO" then INFO
    else if name == "WARN" then WARN
    else ERROR
  }

  /** A logger made for the name of file i writes to file i. */
  lemma NameRoundTrip(index: nat)
    requires index < LOG_FILE_SEVERITIES
    ensures FileIndex(SeverityOf(FileName(index))) == index
  {
    assert |"WARN"| == 4 && |"INFO"| == 4 && |"ERROR"| == 5;
    assert "WARN"[0] == 'W' && "INFO"[0] == 'I';
  }

  /** The order of the enumeration. */
  function Rank(severity: Severity): nat {
    match severity
    case TRACE => 0
    case DEBUG => 1
    case INFO => 2
    case WARN => 3
    case ERROR => 4
    case FATAL => 5
  }

  function NameOf(severity: Severity): string {
    match severity
    case TRACE => "TRACE"
    case DEBUG => "DEBUG"
    case INFO => "INFO"
    case WARN => "WARN"
    case ERROR => "ERROR"
    case FATAL => "FATAL"
  }

  /** The first file takes everything, and each other one the messages at least as severe as the
      severity it is named after. */
  lemma FileTakesItsSeverities(severity: Severity, i: nat)
    requires i < LOG_FILE_SEVERITIES
    ensures FileIndex(severity) >= i <==> i == 0 || Rank(severity) >= Rank(SeverityOf(FileName(i)))
    ensures FileName(i) == NameOf(SeverityOf(FileName(i)))
  {
    NameRoundTrip(i);
  }

  /** A severity and its name lead to the same file. */
  lemma NameLeadsToItsFile(severity: Severity)
    ensures FileIndex(SeverityOf(NameOf(severity))) == FileIndex(severity)
  {
    var name := NameOf(severity);
    assert name[0] == (match severity case TRACE => 'T' case DEBUG => 'D' case INFO => 'I'
                                      case WARN => 'W' case ERROR => 'E' case FATAL => 'F');
  }

  datatype Record = Record(text: string, severity: Severity)

  /** The records meant for file i: those whose index is at least i. */
  function Selected(records: seq<Record>, i: nat): seq<Record> {
    if records == [] then []
    else
      var last := records[|records| - 1];
      Selected(records[..|records| - 1], i) + (if FileIndex(last.severity) >= i then [last] else [])
  }

  function Texts(records: seq<Record>): seq<string> {
    seq(|records|, k requires 0 <= k < |records| => records[k].text)
  }

  lemma TextsOneMore(records: seq<Record>, r: Record)
    ensures Texts(records + [r]) == Texts(records) + [r.text]
  {}

  lemma SelectedOneMore(records: seq<Record>, r: Record, i: nat)
    ensures Selected(records + [r], i) == Selected(records, i) + (if FileIndex(r.severity) >= i then [r] else [])
  {
    assert (records + [r])[..|records + [r]| - 1] == records;
  }

  /** Selecting for a higher file from a lower one is the same as selecting from everything: the
      ERROR file is part of the WARN file, and that of the INFO file, each in order. The INFO file
      has everything. */
  lemma {:induction false} SelectionsNest(records: seq<Record>, i: nat, j: nat)
    requires i <= j
    ensures Selected(Selected(records, i), j) == Selected(records, j)
    ensures Selected(records, 0) == records
  {
    if records != [] {
      var init, last := records[..|records| - 1], records[|records| - 1];
      assert records == init + [last];
      SelectionsNest(init, i, j);
      SelectedOneMore(init, last, i);
      SelectedOneMore(init, last, j);
      SelectedOneMore(init, last, 0);
      SelectedOneMore(Selected(init, i), last, j);
      hide Selected;
      if FileIndex(last.severity) >= i {
        assert Selected(records, i) == Selected(init, i) + [last];
      } else {
        assert Selected(records, i) == Selected(init, i) && Selected(records, j) == Selected(init, j);
      }
    }
  }

  /** A file that has been given `texts`, None before its first message, holds what is meant for it. */
  predicate Serves(file: Option<seq<string>>, records: seq<Record>, i: nat) {
    if file.None? then Selected(records, i) == [] else file.value == Texts(Selected(records, i))
  }

  function Given(file: Option<seq<string>>): seq<string> {
    if file.None? then [] else file.value
  }

  lemma ServesOneMore(file: Option<seq<string>>, records: seq<Record>, r: Record, i: nat)
    requires Serves(file, records, i)
    ensures Serves(if FileIndex(r.severity) >= i then Some(Given(file) + [r.text]) else file, records + [r], i)
  {
    SelectedOneMore(records, r, i);
    TextsOneMore(Selected(records, i), r);
  }

  // ------------------------------------------------------------------ asynchronous

  /** What a logger has been passed, if there is one. */
  function Passed(state: Option<P.Logger>): Option<seq<string>> {
    if state.None? then None else Some(state.value.appended)
  }

  predicate AllServe(states: seq<Option<P.Logger>>, records: seq<Record>) {
    forall i :: 0 <= i < |states| ==> Serves(Passed(states[i]), records, i)
  }

  /** A logger that is not there yet starts empty. */
  function Before(state: Option<P.Logger>, size: nat): P.Logger {
    if state.None? then P.Start(size) else state.value
  }

  /** Each of the first n loggers can be passed the text. */
  predicate CanPass(states: seq<Option<P.Logger>>, size: nat, n: nat, text: string)
    requires n <= |states|
  {
    forall i :: 0 <= i < n ==> P.AppendDefined(Before(states[i], size), text)
  }

  /** The first n loggers have been passed the text. */
  function PassedTo(states: seq<Option<P.Logger>>, size: nat, n: nat, text: string): (r: seq<Option<P.Logger>>)
    requires n <= |states| && CanPass(states, size, n, text)
    ensures |r| == |states|
    ensures forall i :: 0 <= i < |r| ==>
              r[i] == if i < n then Some(P.AppendStep(Before(states[i], size), text)) else states[i]
  {
    if n == 0 then states
    else PassedTo(states, size, n - 1, text)[n - 1 := Some(P.AppendStep(Before(states[n - 1], size), text))]
  }

  lemma PassOneMore(states: seq<Option<P.Logger>>, size: nat, i: nat, n: nat, text: string)
    requires i < n <= |states| && CanPass(states, size, n, text)
    ensures CanPass(states, size, i, text) && CanPass(states, size, i + 1, text)
    ensures PassedTo(states, size, i, text)[i] == states[i]
    ensures P.AppendDefined(Before(states[i], size), text)
    ensures PassedTo(states, size, i + 1, text)
         == PassedTo(states, size, i, text)[i := Some(P.AppendStep(Before(states[i], size), text))]
  {
    hide P.AppendStep, P.AppendDefined, P.Start;
  }

  lemma PassedToServes(states: seq<Option<P.Logger>>, size: nat, records: seq<Record>, r: Record)
    requires FileIndex(r.severity) < |states| && CanPass(states, size, FileIndex(r.severity) + 1, r.text)
    requires AllServe(states, records)
    ensures AllServe(PassedTo(states, size, FileIndex(r.severity) + 1, r.text), records + [r])
  {
    var after := PassedTo(states, size, FileIndex(r.severity) + 1, r.text);
    hide PassedTo, Serves, P.AppendDefined, P.Start;
    forall i | 0 <= i < |states| ensures Serves(Passed(after[i]), records + [r], i) {
      ServesOneMore(Passed(states[i]), records, r, i);
      if i <= FileIndex(r.severity) {
        AppendPasses(Before(states[i], size), r.text);
        NothingPassedAtStart(states[i], size);
      }
    }
  }

  lemma AppendPasses(s: P.Logger, text: string)
    requires P.AppendDefined(s, text)
    ensures P.AppendStep(s, text).appended == s.appended + [text]
  {}

  lemma NothingPassedAtStart(state: Option<P.Logger>, size: nat)
    ensures Before(state, size).appended == Given(Passed(state))
  {}

  lemma OneMoves(states: seq<Option<P.Logger>>, i: nat, t: P.Logger, records: seq<Record>)
    requires AllServe(states, records) && i < |states| && Passed(states[i]) == Some(t.appended)
    ensures AllServe(states[i := Some(t)], records)
  {}

  lemma FileIsPrefixOfItsRecords(logger: P.Logger, records: seq<Record>, i: nat)
    requires P.Reachable(logger) && Serves(Some(logger.appended), records, i)
    ensures logger.output <= P.Kept(Texts(Selected(records, i)), logger.size)
  {
    P.OutputIsPrefixOfLog(logger);
  }

  /** One logger for each file, made when the first message for it comes. */
  class AsyncLoggingManager {
    const size: nat
    var loggers: seq<AsyncLogging?>
    ghost var repr: set<object>
    ghost var records: seq<Record>

    /** The loggers there are share no memory, and each is in a state its threads can reach. */
    ghost predicate Sound()
      reads this`loggers, this`repr, repr
    {
      && |loggers| == LOG_FILE_SEVERITIES && this !in repr
      && (forall i :: 0 <= i < |loggers| && loggers[i] != null ==> Owned(loggers[i]) && loggers[i].Valid())
      && (forall i, j :: 0 <= i < j < |loggers| && loggers[i] != null && loggers[j] != null ==>
            Apart(loggers[i], loggers[j]))
    }

    ghost predicate Owned(logger: AsyncLogging)
      reads this`repr
    {
      logger in repr && logger.memory <= repr && logger.size == size
    }

    static ghost predicate Apart(a: AsyncLogging, b: AsyncLogging) {
      a != b && a !in b.memory && b !in a.memory && a.memory !! b.memory
    }

    ghost function State(i: nat): Option<P.Logger>
      requires Sound() && i < |loggers|
      reads this`loggers, this`repr, repr
    {
      if loggers[i] == null then None else Some(loggers[i].Abs())
    }

    ghost function States(): (r: seq<Option<P.Logger>>)
      requires Sound()
      reads this`loggers, this`repr, repr
      ensures |r| == |loggers| && forall i :: 0 <= i < |r| ==> r[i] == State(i)
    {
      [State(0), State(1), State(2)]
    }

    /** Every logger has been given exactly the records selected for its file, and there is none
        while there are no such records. */
    ghost predicate Valid()
      reads this, repr
    {
      Sound() && AllServe(States(), records)
    }

    constructor (size: nat)
      ensures Valid() && records == [] && this.size == size
    {
      this.size := size;
      loggers := [null, null, null];
      repr, records := {}, [];
    }

    method MakeLogger(i: nat)
      requires Sound() && i < |loggers| && loggers[i] == null
      modifies this`loggers, this`repr
      ensures Sound() && fresh(repr - old(repr)) && |loggers| == |old(loggers)|
      ensures State(i) == Some(P.Start(size))
      ensures forall j :: 0 <= j < |loggers| && j != i ==> loggers[j] == old(loggers[j]) && State(j) == old(State(j))
    {
      hide AsyncLogging.Valid, AsyncLogging.Held, AsyncLogging.Abs, P.Start;
      var logger := new AsyncLogging(size);
      loggers := loggers[i := logger];
      repr := repr + {logger} + logger.memory;
    }

    method PassTo(i: nat, text: string)
      requires Sound() && i < |loggers| && loggers[i] != null
      requires P.AppendDefined(State(i).value, text)
      modifies loggers[i], loggers[i].memory
      ensures Sound() && State(i) == Some(P.AppendStep(old(State(i)).value, text))
      ensures forall j :: 0 <= j < |loggers| && j != i ==> State(j) == old(State(j))
    {
      hide AsyncLogging.Valid, AsyncLogging.Held, AsyncLogging.Abs, P.AppendStep, P.AppendDefined;
      loggers[i].Append(text);
    }

    /** The loop body for file i. */
    method GiveTo(i: nat, text: string)
      requires Sound() && i < |loggers|
      requires P.AppendDefined(Before(State(i), size), text)
      modifies this`loggers, this`repr, repr
      ensures Sound() && fresh(repr - old(repr))
      ensures States() == old(States())[i := Some(P.AppendStep(Before(old(State(i)), size), text))]
    {
      hide AsyncLogging.Valid, AsyncLogging.Held, AsyncLogging.Abs, P.AppendStep, P.AppendDefined, P.Start;
      if loggers[i] == null {
        MakeLogger(i);
      }
      PassTo(i, text);
    }

    /** The loop. */
    method GiveToEach(logIdx: nat, text: string)
      requires Sound() && logIdx < |loggers| && CanPass(States(), size, logIdx + 1, text)
      modifies this`loggers, this`repr, repr
      ensures Sound() && fresh(repr - old(repr))
      ensures States() == PassedTo(old(States()), size, logIdx + 1, text)
    {
      ghost var states := States();
      assert CanPass(states, size, 0, text) && PassedTo(states, size, 0, text) == states;
      hide Sound, State, CanPass, PassedTo, P.AppendStep, P.AppendDefined, Before;
      for i := 0 to logIdx + 1
        invariant Sound() && fresh(repr - old(repr)) && |loggers| == |states|
        invariant CanPass(states, size, i, text) && States() == PassedTo(states, size, i, text)
      {
        PassOneMore(states, size, i, logIdx + 1, text);
        assert State(i) == States()[i];
        GiveTo(i, text);
      }
    }

    /** What a call demands of the loggers it reaches. */
    ghost predicate Ready(r: Record)
      requires Sound()
      reads this`loggers, this`repr, repr
    {
      CanPass(States(), size, FileIndex(r.severity) + 1, r.text)
    }

    method Append(r: Record)
      requires Valid() && Ready(r)
      modifies this`loggers, this`repr, this`records, repr
      ensures Valid() && fresh(repr - old(repr)) && records == old(records) + [r]
      ensures States() == PassedTo(old(States()), size, FileIndex(r.severity) + 1, r.text)
    {
      assert this !in repr && |loggers| == LOG_FILE_SEVERITIES;
      hide Sound, State, States, CanPass, PassedTo, AllServe, FileIndex;
      PassedToServes(States(), size, records, r);
      Note(r);
      GiveToEach(FileIndex(r.severity), r.text);
    }

    ghost method Note(r: Record)
      requires Sound()
      modifies this`records
      ensures Sound() && States() == old(States()) && records == old(records) + [r]
    {
      assert this !in repr;
      hide Sound, State, States;
      records := records + [r];
    }

    lemma SameConsumer(i: nat)
      requires Sound() && i < |loggers| && State(i).Some?
      ensures State(i).value.consumer == loggers[i].consumer
    {}

    method TurnOf(i: nat, notice: string)
      requires Sound() && i < |loggers| && State(i).Some? && !State(i).value.consumer.Exited?
      modifies loggers[i], loggers[i].memory
      ensures Sound() && State(i).Some?
      ensures P.Takes(old(State(i)).value, P.ConsumerStep(old(State(i)).value, notice), State(i).value)
      ensures forall j :: 0 <= j < |loggers| && j != i ==> State(j) == old(State(j))
    {
      hide AsyncLogging.Valid, AsyncLogging.Held, AsyncLogging.Abs, P.Takes, P.ConsumerStep;
      SameConsumer(i);
      loggers[i].Consume(notice);
    }

    /** The consumer of file i takes its next step. */
    method Consume(i: nat, notice: string)
      requires Valid() && i < |loggers| && State(i).Some? && !State(i).value.consumer.Exited?
      modifies loggers[i], loggers[i].memory
      ensures Valid() && State(i).Some?
      ensures P.Takes(old(State(i)).value, P.ConsumerStep(old(State(i)).value, notice), State(i).value)
      ensures States() == old(States())[i := State(i)]
    {
      assert this !in loggers[i].memory;
      hide Sound, State, AllServe, P.Takes, P.ConsumerStep;
      ghost var states := States();
      TurnOf(i, notice);
      P.ConsumerKeepsHistory(states[i].value, notice, State(i).value);
      OneMoves(states, i, State(i).value, records);
      assert States() == states[i := State(i)];
    }

    method StopOf(i: nat)
      requires Sound() && i < |loggers| && State(i).Some?
      modifies loggers[i]
      ensures Sound() && State(i).Some? && P.Takes(old(State(i)).value, P.Stop, State(i).value)
      ensures forall j :: 0 <= j < |loggers| && j != i ==> State(j) == old(State(j))
    {
      hide AsyncLogging.Valid, AsyncLogging.Held, AsyncLogging.Abs, P.Takes;
      loggers[i].Stop();
    }

    /** The stop flag of logger i is set, as its destructor does. */
    method Stop(i: nat)
      requires Valid() && i < |loggers| && State(i).Some?
      modifies loggers[i]
      ensures Valid() && State(i).Some? && P.Takes(old(State(i)).value, P.Stop, State(i).value)
      ensures States() == old(States())[i := State(i)]
    {
      hide Sound, State, AllServe, P.Takes;
      ghost var states := States();
      StopOf(i);
      StopKeepsHistory(states[i].value, State(i).value);
      OneMoves(states, i, State(i).value, records);
      assert States() == states[i := State(i)];
    }

    lemma StopKeepsHistory(s: P.Logger, t: P.Logger)
      requires P.Takes(s, P.Stop, t)
      ensures t.appended == s.appended
    {}

    /** End to end: whatever was appended, and whatever the consumers have done since, file i holds a
        prefix of the records whose severity sends them there, in the order they were logged. */
    lemma FilesArePrefixes()
      requires Valid()
      ensures forall i :: 0 <= i < |loggers| && loggers[i] != null ==>
                loggers[i].output <= P.Kept(Texts(Selected(records, i)), size)
    {
      forall i | 0 <= i < |loggers| && loggers[i] != null
        ensures loggers[i].output <= P.Kept(Texts(Selected(records, i)), size)
      {
        assert Serves(Passed(States()[i]), records, i);
        FileIsPrefixOfItsRecords(loggers[i].Abs(), records, i);
      }
    }
  }

  // ------------------------------------------------------------------ synchronous

  /** The text with the newline LogMessage::Flush puts after it when it has none. */
  function Line(text: string): (line: string)
    requires text != ""
    ensures line != "" && line[|line| - 1] == '\n'
    ensures line == text || (line == text + "\n" && text[|text| - 1] != '\n')
  {
    if text[|text| - 1] == '\n' then text else text + "\n"
  }

  const MAX_LOG_MESSAGE_LEN: nat := 262144

  /** What a message that comes near the limit is followed by. */
  function Warned(r: Record, warning: string): (w: seq<Record>)
    ensures w == if |r.text| > 262134 then [Record(warning, r.severity)] else []
  {
    if |r.text| > MAX_LOG_MESSAGE_LEN - 10 then [Record(warning, r.severity)] else []
  }

  /** The destinations of LogMessage::Flush: what each file was given, None before its first message,
      and what was sent to the send method, which is standard error or an asynchronous logger. */
  class LogDestinations {
    const files: array<Option<seq<string>>>
    var sent: seq<Record>
    ghost var records: seq<Record>

    ghost predicate Valid()
      reads this, files
    {
      && files.Length == LOG_FILE_SEVERITIES
      && (forall i :: 0 <= i < files.Length ==> Serves(files[i], records, i))
    }

    constructor ()
      ensures Valid() && fresh(files) && records == [] && sent == []
    {
      files := new Option<seq<string>>[LOG_FILE_SEVERITIES](_ => None);
      sent, records := [], [];
    }

    /** When logging is asynchronous everything is sent on as it is. Otherwise the message goes to the
        files if there are a log directory and a program name, and is sent as INFO if there is no
        directory, or when asked for. */
    method Flush(r: Record, async: bool, hasLogDir: bool, hasProgramName: bool, alsoToStderr: bool, warning: string)
      requires Valid() && r.text != ""
      modifies this, files
      ensures Valid()
      ensures var line := r.(text := Line(r.text));
              && records == old(records) + (if !async && hasLogDir && hasProgramName then [line] else [])
              && sent == old(sent)
                         + (if async then [line]
                            else if !hasLogDir || alsoToStderr then [line.(severity := INFO)]
                            else [])
                         + Warned(line, warning)
    {
      hide Selected, Texts, Serves;
      var line := Line(r.text);
      if async {
        sent := sent + [Record(line, r.severity)];
      } else {
        if hasLogDir && hasProgramName {
          Write(r.(text := line));
        }
        if !hasLogDir || (hasLogDir && alsoToStderr) {
          sent := sent + [Record(line, INFO)];
        }
      }
      if |line| > MAX_LOG_MESSAGE_LEN - 10 {
        sent := sent + [Record(warning, r.severity)];
      }
    }

    /** The loop over the files. */
    method Write(r: Record)
      requires Valid()
      modifies this`records, files
      ensures Valid() && records == old(records) + [r]
    {
      hide Selected, Texts, Serves;
      for i := 0 to FileIndex(r.severity) + 1
        invariant records == old(records)
        invariant forall j :: 0 <= j < i ==> Serves(files[j], records + [r], j)
        invariant forall j :: i <= j < files.Length ==> Serves(files[j], records, j)
      {
        ServesOneMore(files[i], records, r, i);
        files[i] := Some(Given(files[i]) + [r.text]);
      }
      forall j | FileIndex(r.severity) < j < files.Length ensures Serves(files[j], records + [r], j) {
        ServesOneMore(files[j], records, r, j);
      }
      records := records + [r];
    }
  }
}
