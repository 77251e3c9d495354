/** The classes WriteOp and LogFile of base/logging.cc, with the clock and the existence test as
    inputs. A file is the bytes written to it; its stream never fails. */
module LogFiles {
  import opened LogRolling

  function MachineLine(): (s: string)
    ensures s != ""
  {
    "Running on machine: "
  }

  function FormatLine(): (s: string)
    ensures s != ""
  {
    "Log line format: [I|W|E|F]mmdd hh:mm:ss.uuuuuu threadid file:line] msg"
  }

  /** `sizeof(line)` in RollFile: the date line with its terminating NUL. */
  const DATE_LINE_SIZE: nat := 41

  /** What WriteOp::write puts out. */
  function Output(msg: string, endln: bool): string {
    if msg == "" then "" else if endln then msg + "\n" else msg
  }

  function Header(dateLine: string, machine: string): string {
    Output(dateLine, true) + MachineLine() + Output(machine, true) + FormatLine() + "\n"
  }

  function HeaderSize(machine: string): nat {
    |Header(seq(DATE_LINE_SIZE, _ => ' '), machine)|
  }

  lemma HeadersHaveOneSize(dateLine: string, machine: string)
    requires |dateLine| == DATE_LINE_SIZE
    ensures |Header(dateLine, machine)| == HeaderSize(machine)
  {
    hide MachineLine, FormatLine;
  }

  /** The bytes a new file starts with: a machine without a name takes no line of its own. */
  lemma HeaderBytes(machine: string)
    ensures HeaderSize(machine) == 133 + (if machine == "" then 0 else |machine| + 1)
  {
    assert |MachineLine()| == 20;
    assert |FormatLine()| == 70;
    hide MachineLine, FormatLine;
  }

  function Text(entries: seq<Entry>): string {
    if entries == [] then "" else Text(entries[..|entries| - 1]) + entries[|entries| - 1].msg
  }

  lemma OneMoreEntry(entries: seq<Entry>, e: Entry)
    ensures Text(entries + [e]) == Text(entries) + e.msg
    ensures Bytes(entries + [e]) == Bytes(entries) + |e.msg|
  {
    assert (entries + [e])[..|entries|] == entries;
  }

  class WriteOp {
    var content: string
    var writtenBytes: nat

    constructor ()
      ensures content == "" && writtenBytes == 0
    {
      content, writtenBytes := "", 0;
    }

    method Write(msg: string, endln: bool)
      modifies this
      ensures content == old(content) + Output(msg, endln)
      ensures writtenBytes == old(writtenBytes) + |Output(msg, endln)|
    {
      if |msg| == 0 {
        return;
      }
      content := content + msg;
      writtenBytes := writtenBytes + |msg|;
      if endln {
        content := content + "\n";
        writtenBytes := writtenBytes + 1;
      }
    }
  }

  class LogFile {
    const rollSize: int
    const checkEveryN: int
    const flushInterval: int
    const machine: string

    var startOfPeriod: nat
    var lastRoll: nat
    var lastFlush: nat
    var count: int
    var file: WriteOp?

    ghost var closed: seq<File>
    ghost var current: File
    ghost var dateLine: string

    ghost function Settings(): Config {
      Config(rollSize, checkEveryN, flushInterval, HeaderSize(machine))
    }

    /** The open file holds its header and its messages, and the byte count is right. */
    ghost predicate Valid()
      reads this, file
    {
      && |dateLine| == DATE_LINE_SIZE
      && file != null
      && file.content == Header(dateLine, machine) + Text(current.entries)
      && file.writtenBytes == |file.content| == Written(Settings(), current)
    }

    ghost function Abs(): Log
      reads this
    {
      Log(closed + [current], startOfPeriod, lastRoll, lastFlush, count)
    }

    constructor (rollSize: int, checkEveryN: int, flushInterval: int, machine: string,
                 now: nat, name: nat, line: string)
      requires now > 0 && |line| == DATE_LINE_SIZE
      ensures Valid() && Abs() == Opened(now, name)
      ensures Settings() == Config(rollSize, checkEveryN, flushInterval, HeaderSize(machine)) && fresh(file)
    {
      this.rollSize, this.checkEveryN, this.flushInterval := rollSize, checkEveryN, flushInterval;
      this.machine := machine;
      startOfPeriod, lastRoll, lastFlush, count := 0, 0, 0, 0;
      file := null;
      closed, current := [], File(now, name, []);
      new;
      hide Header, HeaderSize, Text;
      OpenFile(now, name, line);
      assert [] + [File(now, name, [])] == [File(now, name, [])];
    }

    /** The body of RollFile once a new file is due. */
    method OpenFile(now: nat, name: nat, line: string)
      requires |line| == DATE_LINE_SIZE
      modifies this`startOfPeriod, this`lastRoll, this`lastFlush, this`file, this`current, this`dateLine
      ensures Valid() && fresh(file) && current == File(now, name, [])
      ensures startOfPeriod == DayOf(now) && lastRoll == now && lastFlush == now
    {
      HeadersHaveOneSize(line, machine);
      hide Header, HeaderSize;
      lastRoll := now;
      lastFlush := now;
      startOfPeriod := now / SECONDS_PER_DAY * SECONDS_PER_DAY;
      file := new WriteOp();
      dateLine, current := line, File(now, name, []);
      WriteHeader(file, line);
    }

    method WriteHeader(f: WriteOp, line: string)
      requires f.content == "" && f.writtenBytes == 0
      modifies f
      ensures f.content == Header(line, machine) && f.writtenBytes == |f.content|
      ensures line != "" ==> line + "\n" <= f.content
      ensures var n := |f.content| - |FormatLine()| - 1; n >= 0 && f.content[n..] == FormatLine() + "\n"
    {
      hide MachineLine, FormatLine;
      f.Write(line, true);
      f.Write(MachineLine(), false);
      f.Write(machine, true);
      f.Write(FormatLine(), true);
    }

    method RollFile(now: nat, name: nat, line: string) returns (rolled: bool)
      requires Valid() && |line| == DATE_LINE_SIZE
      modifies this
      ensures Valid() && (file == old(file) || fresh(file))
      ensures Abs() == Roll(old(Abs()), now, name)
      ensures rolled == (now > old(lastRoll))
      ensures if rolled then fresh(file) && lastRoll == lastFlush == now && startOfPeriod == DayOf(now)
              else file == old(file) && lastRoll == old(lastRoll) && lastFlush == old(lastFlush)
    {
      hide Header, HeaderSize, Text;
      if now > lastRoll {
        closed := closed + [current];
        OpenFile(now, name, line);
        return true;
      }
      return false;
    }

    method AddMessage(msg: string, ghost e: Entry)
      requires Valid() && e.msg == msg
      modifies this`current, file
      ensures Valid() && Abs() == AddEntry(old(Abs()), e)
      ensures file.content == old(file.content) + msg && file.writtenBytes == old(file.writtenBytes) + |msg|
    {
      hide Header, HeaderSize, Text, Bytes;
      ghost var s, entries := Abs(), current.entries;
      ghost var header := Header(dateLine, machine);
      file.Write(msg, false);
      current := current.(entries := entries + [e]);
      OneMoreEntry(entries, e);
      assert header + Text(entries) + msg == header + (Text(entries) + msg);
      assert Abs().files == AddEntry(s, e).files;
    }

    method WriteUnlocked(begin: nat, msg: string, r: Readings, line1: string, line2: string)
      requires Valid() && |line1| == |line2| == DATE_LINE_SIZE && |msg| < 0x8000_0000
      modifies this, file
      ensures Valid()
      ensures Abs() == WriteStep(Settings(), old(Abs()), Write(begin, msg, r))
      ensures old(file).content == old(file.content) + msg
      ensures (r.even && !r.exists_) || old(file.writtenBytes) + |msg| > rollSize ==>
                (r.now1 > old(lastRoll) ==> fresh(file))
      ensures !(r.even && !r.exists_) && old(file.writtenBytes) + |msg| <= rollSize ==>
                && (old(count) + 1 < checkEveryN ==> file == old(file) && count == old(count) + 1)
                && (DayOf(r.check) == old(startOfPeriod) ==> file == old(file))
      ensures count == if !(r.even && !r.exists_) && old(file.writtenBytes) + |msg| > rollSize then old(count)
                       else if old(count) + 1 >= checkEveryN then 0 else old(count) + 1
    {
      hide Header, HeaderSize, Text, Bytes, AddEntry, Settled, DayOf;
      AddMessage(msg, EntryOf(Write(begin, msg, r)));
      Settle(r, line1, line2);
    }

    /** What follows the writing of the message. */
    method Settle(r: Readings, line1: string, line2: string)
      requires Valid() && |line1| == |line2| == DATE_LINE_SIZE
      modifies this
      ensures Valid()
      ensures Abs() == Settled(Settings(), old(Abs()), r)
      ensures (r.even && !r.exists_) || old(file.writtenBytes) > rollSize ==>
                (r.now1 > old(lastRoll) ==> fresh(file))
      ensures !(r.even && !r.exists_) && old(file.writtenBytes) <= rollSize ==>
                && (old(count) + 1 < checkEveryN ==> file == old(file) && count == old(count) + 1)
                && (DayOf(r.check) == old(startOfPeriod) ==> file == old(file))
      ensures count == if !(r.even && !r.exists_) && old(file.writtenBytes) > rollSize then old(count)
                       else if old(count) + 1 >= checkEveryN then 0 else old(count) + 1
    {
      hide Header, HeaderSize, Text, Bytes, DayOf, PeriodicCheck;
      var isRolled := false;
      if r.even {
        if !r.exists_ {
          var _ := RollFile(r.now1, r.name1, line1);
          isRolled := true;
        }
      }
      if file.writtenBytes > rollSize && !isRolled {
        var _ := RollFile(r.now1, r.name1, line1);
      } else {
        CountAndCheck(r, line2);
      }
    }

    method CountAndCheck(r: Readings, line: string)
      requires Valid() && |line| == DATE_LINE_SIZE
      modifies this
      ensures Valid() && (file == old(file) || fresh(file))
      ensures Abs() == PeriodicCheck(Settings(), old(Abs()), r)
      ensures count == if old(count) + 1 >= checkEveryN then 0 else old(count) + 1
      ensures old(count) + 1 < checkEveryN || DayOf(r.check) == old(startOfPeriod) ==> file == old(file)
    {
      hide Header, HeaderSize, Text;
      count := count + 1;
      if count >= checkEveryN {
        count := 0;
        var thisPeriod := r.check / SECONDS_PER_DAY * SECONDS_PER_DAY;
        if thisPeriod != startOfPeriod {
          var _ := RollFile(r.now2, r.name2, line);
        } else if r.check - lastFlush > flushInterval {
          lastFlush := r.check;
        }
      }
    }
  }
}
