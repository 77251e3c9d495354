/** How base/logging.cc distributes messages over log files: LogFile::WriteUnlocked and
    LogFile::RollFile as functions of the clock readings they make and of whether the current file
    still exists. The clock never goes back. */
module LogRolling {
  import opened Arithmetic

  const SECONDS_PER_DAY: nat := 86400

  /** `now / roll_per_seconds * roll_per_seconds` */
  function DayOf(now: nat): nat {
    now / SECONDS_PER_DAY * SECONDS_PER_DAY
  }

  /** `header` is the number of bytes RollFile writes into a new file. */
  datatype Config = Config(rollSize: int, checkEveryN: int, flushInterval: int, header: nat)

  /** A message, when its write began, and whether the write found the file gone. */
  datatype Entry = Entry(begin: nat, msg: string, gone: bool)

  /** When RollFile opened the file, the later second its name is made of, and what it took. */
  datatype File = File(openedAt: nat, namedAt: nat, entries: seq<Entry>)

  /** The last file is the open one. */
  datatype Log = Log(files: seq<File>, startOfPeriod: nat, lastRoll: nat, lastFlush: nat, count: int)

  /** What a write reads: whether the cached second is even and the file exists; the clock in a first
      RollFile, for its file name, in the periodic check, and in a second RollFile and its name. */
  datatype Readings = Readings(even: bool, exists_: bool, now1: nat, name1: nat, check: nat, now2: nat, name2: nat)

  datatype Write = Write(begin: nat, msg: string, r: Readings)

  predicate FindsFileGone(r: Readings) {
    r.even && !r.exists_
  }

  function EntryOf(w: Write): Entry {
    Entry(w.begin, w.msg, FindsFileGone(w.r))
  }

  predicate InOrder(w: Write) {
    w.begin <= w.r.now1 <= w.r.name1 <= w.r.check <= w.r.now2 <= w.r.name2
  }

  function Bytes(entries: seq<Entry>): nat {
    if entries == [] then 0 else Bytes(entries[..|entries| - 1]) + |entries[|entries| - 1].msg|
  }

  /** `written_bytes()` */
  function Written(cfg: Config, f: File): nat {
    cfg.header + Bytes(f.entries)
  }

  function Current(s: Log): File
    requires s.files != []
  {
    s.files[|s.files| - 1]
  }

  function AddEntry(s: Log, e: Entry): Log
    requires s.files != []
  {
    var f := Current(s);
    s.(files := s.files[|s.files| - 1 := f.(entries := f.entries + [e])])
  }

  /** RollFile: a new file, but never two for one second. */
  function Roll(s: Log, now: nat, name: nat): Log {
    if now > s.lastRoll then
      s.(files := s.files + [File(now, name, [])], startOfPeriod := DayOf(now), lastRoll := now, lastFlush := now)
    else s
  }

  /** The last part of WriteUnlocked, reached when the size did not call for a new file. */
  function PeriodicCheck(cfg: Config, s: Log, r: Readings): Log {
    if s.count + 1 >= cfg.checkEveryN then
      var s := s.(count := 0);
      if DayOf(r.check) != s.startOfPeriod then Roll(s, r.now2, r.name2)
      else if r.check - s.lastFlush > cfg.flushInterval then s.(lastFlush := r.check)
      else s
    else s.(count := s.count + 1)
  }

  /** What WriteUnlocked does once the message is written. A missing file sets `is_rolled` even when
      RollFile refuses. */
  function Settled(cfg: Config, s: Log, r: Readings): Log
    requires s.files != []
  {
    if FindsFileGone(r) then PeriodicCheck(cfg, Roll(s, r.now1, r.name1), r)
    else if Written(cfg, Current(s)) > cfg.rollSize then Roll(s, r.now1, r.name1)
    else PeriodicCheck(cfg, s, r)
  }

  function WriteStep(cfg: Config, s: Log, w: Write): Log
    requires s.files != []
  {
    Settled(cfg, AddEntry(s, EntryOf(w)), w.r)
  }

  /** After construction, which rolls once at a clock past the epoch. */
  function Opened(now: nat, name: nat): Log
    requires now > 0
  {
    Roll(Log([], 0, 0, 0, 0), now, name)
  }

  /** A run of writes from s at the time `clock` to t. */
  ghost predicate Writes(cfg: Config, s: Log, clock: nat, ws: seq<Write>, t: Log)
    decreases |ws|
  {
    if ws == [] then s == t
    else
      && s.files != [] && clock <= ws[0].begin && InOrder(ws[0])
      && Writes(cfg, WriteStep(cfg, s, ws[0]), ws[0].r.name2, ws[1..], t)
  }

  // ------------------------------------------------------------------ invariants

  function Period(cfg: Config): nat {
    if cfg.checkEveryN < 1 then 1 else cfg.checkEveryN
  }

  ghost predicate Bookkeeping(cfg: Config, s: Log, clock: nat) {
    && s.files != []
    && s.startOfPeriod == DayOf(s.lastRoll)
    && s.lastRoll == Current(s).openedAt
    && s.lastRoll <= Current(s).namedAt <= clock
    && s.lastRoll <= s.lastFlush <= clock
    && 0 <= s.count < Period(cfg)
  }

  /** Each file is named no earlier than it is opened, and opened before the next one is. */
  ghost predicate NamesInOrder(s: Log) {
    && (forall i :: 0 <= i < |s.files| ==> s.files[i].openedAt <= s.files[i].namedAt)
    && (forall i :: 0 <= i < |s.files| - 1 ==>
          s.files[i].openedAt < s.files[i + 1].openedAt && s.files[i].namedAt <= s.files[i + 1].openedAt)
  }

  /** An entry written later than the second the file was opened in found the file there and did
      not make it too big; `upTo` entries are looked at. */
  ghost predicate FitsUpTo(cfg: Config, f: File, upTo: nat)
    requires upTo <= |f.entries|
  {
    forall k :: 0 <= k < upTo && f.entries[k].begin > f.openedAt ==>
      !f.entries[k].gone && cfg.header + Bytes(f.entries[..k + 1]) <= cfg.rollSize
  }

  /** All of the open file has to fit, and all but the last message of the others. */
  ghost predicate SizesKept(cfg: Config, s: Log) {
    forall i :: 0 <= i < |s.files| ==>
      var f := s.files[i];
      var n := |f.entries|;
      FitsUpTo(cfg, f, if i == |s.files| - 1 || n == 0 then n else n - 1)
  }

  /** The start of the day, in seconds of 24 * 60 * 60 to a day. */
  lemma DayStarts(now: nat)
    ensures DayOf(now) % 86400 == 0 && DayOf(now) <= now < DayOf(now) + 86400
  {}

  lemma LaterDayIsLater(a: nat, b: nat)
    ensures DayOf(a) < DayOf(b) ==> a < b
    ensures a <= b ==> DayOf(a) <= DayOf(b)
  {
    if a <= b { QuotientMonotone(a, b, SECONDS_PER_DAY); }
    if b <= a { QuotientMonotone(b, a, SECONDS_PER_DAY); }
  }

  lemma OpenedIsValid(cfg: Config, now: nat, name: nat)
    requires 0 < now <= name
    ensures var s := Opened(now, name); Bookkeeping(cfg, s, name) && NamesInOrder(s) && SizesKept(cfg, s)
  {}

  lemma RollKeeps(cfg: Config, s: Log, clock: nat, now: nat, name: nat)
    requires Bookkeeping(cfg, s, clock) && NamesInOrder(s) && clock <= now <= name
    ensures Bookkeeping(cfg, Roll(s, now, name), name) && NamesInOrder(Roll(s, now, name))
  {
    var t := Roll(s, now, name);
    if now > s.lastRoll {
      assert t.files[|t.files| - 1] == File(now, name, []);
      assert t.files[|t.files| - 2] == Current(s);
    }
  }

  lemma AddKeeps(cfg: Config, s: Log, e: Entry, clock: nat)
    requires Bookkeeping(cfg, s, clock) && NamesInOrder(s)
    ensures Bookkeeping(cfg, AddEntry(s, e), clock) && NamesInOrder(AddEntry(s, e))
  {}

  lemma CheckKeeps(cfg: Config, s: Log, clock: nat, r: Readings)
    requires Bookkeeping(cfg, s, clock) && NamesInOrder(s) && clock <= r.check <= r.now2 <= r.name2
    ensures Bookkeeping(cfg, PeriodicCheck(cfg, s, r), r.name2) && NamesInOrder(PeriodicCheck(cfg, s, r))
  {
    var c := s.(count := 0);
    assert Bookkeeping(cfg, c, clock) && NamesInOrder(c);
    var t := PeriodicCheck(cfg, s, r);
    if s.count + 1 < cfg.checkEveryN {
      assert t == s.(count := s.count + 1);
    } else if DayOf(r.check) != s.startOfPeriod {
      assert t == Roll(c, r.now2, r.name2);
      hide PeriodicCheck, Roll, DayOf, Bookkeeping, NamesInOrder;
      RollKeeps(cfg, c, clock, r.now2, r.name2);
    } else {
      hide Roll, DayOf;
      assert t == c || t == c.(lastFlush := r.check);
    }
  }

  lemma WriteKeepsBookkeeping(cfg: Config, s: Log, clock: nat, w: Write)
    requires Bookkeeping(cfg, s, clock) && NamesInOrder(s) && clock <= w.begin && InOrder(w)
    ensures Bookkeeping(cfg, WriteStep(cfg, s, w), w.r.name2) && NamesInOrder(WriteStep(cfg, s, w))
  {
    var a := AddEntry(s, EntryOf(w));
    AddKeeps(cfg, s, EntryOf(w), clock);
    hide Bookkeeping, NamesInOrder, AddEntry, Roll, PeriodicCheck, Written;
    RollKeeps(cfg, a, clock, w.r.now1, w.r.name1);
    assert Bookkeeping(cfg, a, w.r.name1) by { ClockMayAdvance(cfg, a, clock, w.r.name1); }
    CheckKeeps(cfg, a, w.r.name1, w.r);
    CheckKeeps(cfg, Roll(a, w.r.now1, w.r.name1), w.r.name1, w.r);
    ClockMayAdvance(cfg, Roll(a, w.r.now1, w.r.name1), w.r.name1, w.r.name2);
  }

  lemma ClockMayAdvance(cfg: Config, s: Log, clock: nat, later: nat)
    requires Bookkeeping(cfg, s, clock) && clock <= later
    ensures Bookkeeping(cfg, s, later)
  {}

  // ------------------------------------------------------------------ each message in one file

  function Logged(files: seq<File>): seq<Entry> {
    if files == [] then [] else Logged(files[..|files| - 1]) + files[|files| - 1].entries
  }

  function EntriesOf(ws: seq<Write>): seq<Entry> {
    seq(|ws|, i requires 0 <= i < |ws| => EntryOf(ws[i]))
  }

  /** An entry holds the message of its write, when that began, and whether it found no file. */
  lemma EntriesAreTheWrites(ws: seq<Write>, k: nat)
    requires k < |ws|
    ensures |EntriesOf(ws)| == |ws|
    ensures EntriesOf(ws)[k] == Entry(ws[k].begin, ws[k].msg, ws[k].r.even && !ws[k].r.exists_)
  {}

  lemma AddLogs(s: Log, e: Entry)
    requires s.files != []
    ensures Logged(AddEntry(s, e).files) == Logged(s.files) + [e]
  {
    var n := |s.files| - 1;
    assert AddEntry(s, e).files[..n] == s.files[..n];
  }

  lemma RollLogs(s: Log, now: nat, name: nat)
    ensures Logged(Roll(s, now, name).files) == Logged(s.files)
    ensures |Roll(s, now, name).files| >= |s.files|
  {
    if now > s.lastRoll {
      assert Roll(s, now, name).files[..|s.files|] == s.files;
    }
  }

  lemma CheckLogs(cfg: Config, s: Log, r: Readings)
    ensures Logged(PeriodicCheck(cfg, s, r).files) == Logged(s.files)
    ensures |PeriodicCheck(cfg, s, r).files| >= |s.files|
  {
    RollLogs(s.(count := 0), r.now2, r.name2);
    hide Logged, DayOf;
  }

  lemma WriteLogs(cfg: Config, s: Log, w: Write)
    requires s.files != []
    ensures Logged(WriteStep(cfg, s, w).files) == Logged(s.files) + [EntryOf(w)]
    ensures WriteStep(cfg, s, w).files != []
  {
    var a := AddEntry(s, EntryOf(w));
    AddLogs(s, EntryOf(w));
    assert a.files != [];
    hide Logged, AddEntry, EntryOf, Written, Roll, PeriodicCheck;
    var b := Roll(a, w.r.now1, w.r.name1);
    RollLogs(a, w.r.now1, w.r.name1);
    CheckLogs(cfg, a, w.r);
    CheckLogs(cfg, b, w.r);
  }

  /** Over any run each message goes to exactly one file: file after file, the entries are the
      messages written, in the order they were written. */
  lemma {:induction false} EachMessageInOneFile(cfg: Config, s: Log, clock: nat, ws: seq<Write>, t: Log)
    requires Writes(cfg, s, clock, ws, t)
    ensures Logged(t.files) == Logged(s.files) + EntriesOf(ws)
    decreases |ws|
  {
    if ws == [] {
      assert EntriesOf(ws) == [];
    } else {
      WriteLogs(cfg, s, ws[0]);
      hide WriteStep, Logged;
      EachMessageInOneFile(cfg, WriteStep(cfg, s, ws[0]), ws[0].r.name2, ws[1..], t);
      assert EntriesOf(ws) == [EntryOf(ws[0])] + EntriesOf(ws[1..]);
    }
  }

  // ------------------------------------------------------------------ bookkeeping over all runs

  /** `start_of_period_` is the day of the last roll, which is when the open file was opened, and
      the count stays below `check_every_n_`. */
  lemma {:induction false} RunKeepsBookkeeping(cfg: Config, s: Log, clock: nat, ws: seq<Write>, t: Log)
    requires Bookkeeping(cfg, s, clock) && NamesInOrder(s) && Writes(cfg, s, clock, ws, t)
    ensures Bookkeeping(cfg, t, if ws == [] then clock else ws[|ws| - 1].r.name2) && NamesInOrder(t)
    decreases |ws|
  {
    if ws != [] {
      WriteKeepsBookkeeping(cfg, s, clock, ws[0]);
      hide WriteStep, Bookkeeping, NamesInOrder;
      RunKeepsBookkeeping(cfg, WriteStep(cfg, s, ws[0]), ws[0].r.name2, ws[1..], t);
    }
  }

  /** Two files may be named for the same second, and then share a name, only if the second one was
      opened and named in the very second the first was named for; a third is always different. */
  lemma NamesRepeatAtMostOnce(s: Log, i: nat, j: nat)
    requires NamesInOrder(s) && i < j < |s.files|
    ensures s.files[i].namedAt <= s.files[j].namedAt
    ensures s.files[i].namedAt == s.files[j].namedAt <==>
            j == i + 1 && s.files[i].namedAt == s.files[j].openedAt == s.files[j].namedAt
    decreases j - i
  {
    if j > i + 1 {
      NamesRepeatAtMostOnce(s, i + 1, j);
    }
  }

  // ------------------------------------------------------------------ a new day

  /** A write that begins in a later day than the open file either rolls or counts one up. */
  lemma LaterDayRollsOrCounts(cfg: Config, s: Log, clock: nat, w: Write)
    requires Bookkeeping(cfg, s, clock) && clock <= w.begin && InOrder(w)
    requires DayOf(w.begin) > s.startOfPeriod
    ensures var t := WriteStep(cfg, s, w);
            || |t.files| > |s.files|
            || (t.startOfPeriod == s.startOfPeriod && t.count == s.count + 1)
    ensures |WriteStep(cfg, s, w).files| >= |s.files|
  {
    LaterDayIsLater(s.lastRoll, w.begin);
    LaterDayIsLater(w.begin, w.r.check);
    hide DayOf;
  }

  /** Any `check_every_n_` consecutive writes that begin in a later day than the open file include a
      roll. */
  lemma {:induction false} NewDayRolls(cfg: Config, s: Log, clock: nat, ws: seq<Write>, t: Log)
    requires Bookkeeping(cfg, s, clock) && NamesInOrder(s) && Writes(cfg, s, clock, ws, t)
    requires forall k :: 0 <= k < |ws| ==> DayOf(ws[k].begin) > s.startOfPeriod
    ensures |t.files| >= |s.files|
    ensures s.count + |ws| >= Period(cfg) ==> |t.files| > |s.files|
    decreases |ws|
  {
    if ws != [] {
      var u := WriteStep(cfg, s, ws[0]);
      LaterDayRollsOrCounts(cfg, s, clock, ws[0]);
      WriteKeepsBookkeeping(cfg, s, clock, ws[0]);
      hide WriteStep;
      if |u.files| > |s.files| {
        FilesOnlyGrow(cfg, u, ws[0].r.name2, ws[1..], t);
      } else {
        NewDayRolls(cfg, u, ws[0].r.name2, ws[1..], t);
      }
    }
  }

  lemma {:induction false} FilesOnlyGrow(cfg: Config, s: Log, clock: nat, ws: seq<Write>, t: Log)
    requires Writes(cfg, s, clock, ws, t)
    ensures |t.files| >= |s.files|
    decreases |ws|
  {
    if ws != [] {
      assert |WriteStep(cfg, s, ws[0]).files| >= |s.files|;
      hide WriteStep;
      FilesOnlyGrow(cfg, WriteStep(cfg, s, ws[0]), ws[0].r.name2, ws[1..], t);
    }
  }

  // ------------------------------------------------------------------ flushing

  lemma WriteFlushesOrCounts(cfg: Config, s: Log, clock: nat, w: Write)
    requires Bookkeeping(cfg, s, clock) && clock <= w.begin && InOrder(w) && cfg.flushInterval >= 0
    ensures var t := WriteStep(cfg, s, w);
            t.lastFlush >= s.lastFlush && (t.lastFlush + cfg.flushInterval >= w.begin || t.count == s.count + 1)
  {
    hide DayOf, Written;
  }

  /** After any `check_every_n_` consecutive writes the last flush is no older than the interval,
      seen from the beginning of the first of them. */
  lemma {:induction false} FlushKeepsUp(cfg: Config, s: Log, clock: nat, ws: seq<Write>, t: Log)
    requires Bookkeeping(cfg, s, clock) && NamesInOrder(s) && Writes(cfg, s, clock, ws, t) && cfg.flushInterval >= 0
    ensures t.lastFlush >= s.lastFlush
    ensures s.count + |ws| >= Period(cfg) ==> ws != [] && t.lastFlush + cfg.flushInterval >= ws[0].begin
    decreases |ws|
  {
    if ws != [] {
      WriteFlushesOrCounts(cfg, s, clock, ws[0]);
      WriteKeepsBookkeeping(cfg, s, clock, ws[0]);
      hide WriteStep;
      FlushKeepsUp(cfg, WriteStep(cfg, s, ws[0]), ws[0].r.name2, ws[1..], t);
    }
  }

  // ------------------------------------------------------------------ oversize files

  /** Every file fits but for its last message. */
  ghost predicate AlmostKept(cfg: Config, s: Log) {
    forall i :: 0 <= i < |s.files| ==>
      var n := |s.files[i].entries|; FitsUpTo(cfg, s.files[i], if n == 0 then 0 else n - 1)
  }

  lemma AddAlmostKeeps(cfg: Config, s: Log, e: Entry)
    requires s.files != [] && SizesKept(cfg, s)
    ensures AlmostKept(cfg, AddEntry(s, e))
  {
    var t := AddEntry(s, e);
    forall i | 0 <= i < |t.files|
      ensures var n := |t.files[i].entries|; FitsUpTo(cfg, t.files[i], if n == 0 then 0 else n - 1)
    {
      if i == |t.files| - 1 {
        var f := Current(s);
        assert forall m :: 0 <= m <= |f.entries| ==> (f.entries + [e])[..m] == f.entries[..m];
      }
    }
  }

  lemma RollKeepsSizes(cfg: Config, s: Log, now: nat, name: nat)
    requires s.files != [] && (SizesKept(cfg, s) || (AlmostKept(cfg, s) && now > s.lastRoll))
    ensures SizesKept(cfg, Roll(s, now, name))
  {
    var t := Roll(s, now, name);
    if now > s.lastRoll {
      forall i | 0 <= i < |t.files|
        ensures var f := t.files[i]; var n := |f.entries|;
                FitsUpTo(cfg, f, if i == |t.files| - 1 || n == 0 then n else n - 1)
      {
        if i < |s.files| { assert t.files[i] == s.files[i]; }
      }
    }
  }

  lemma SmallCurrentKeepsSizes(cfg: Config, s: Log)
    requires s.files != [] && AlmostKept(cfg, s) && s.lastRoll == Current(s).openedAt
    requires Current(s).entries != []
    requires var e := Current(s).entries[|Current(s).entries| - 1];
             e.begin > s.lastRoll ==> !e.gone && Written(cfg, Current(s)) <= cfg.rollSize
    ensures SizesKept(cfg, s)
  {
    var f := Current(s);
    assert f.entries[..|f.entries|] == f.entries;
  }

  lemma CheckKeepsSizes(cfg: Config, s: Log, r: Readings)
    requires s.files != [] && SizesKept(cfg, s)
    ensures SizesKept(cfg, PeriodicCheck(cfg, s, r))
  {
    RollKeepsSizes(cfg, s.(count := 0), r.now2, r.name2);
  }

  lemma WriteKeepsSizes(cfg: Config, s: Log, clock: nat, w: Write)
    requires Bookkeeping(cfg, s, clock) && SizesKept(cfg, s) && clock <= w.begin && InOrder(w)
    ensures SizesKept(cfg, WriteStep(cfg, s, w))
  {
    var e := EntryOf(w);
    var a := AddEntry(s, e);
    AddAlmostKeeps(cfg, s, e);
    assert a.lastRoll == Current(a).openedAt && Current(a).entries == Current(s).entries + [e];
    hide SizesKept, AlmostKept, Bookkeeping;
    if w.begin <= a.lastRoll || (!FindsFileGone(w.r) && Written(cfg, Current(a)) <= cfg.rollSize) {
      SmallCurrentKeepsSizes(cfg, a);
      CheckKeepsSizes(cfg, a, w.r);
    }
    RollKeepsSizes(cfg, a, w.r.now1, w.r.name1);
    CheckKeepsSizes(cfg, Roll(a, w.r.now1, w.r.name1), w.r);
  }

  lemma {:induction false} RunKeepsSizes(cfg: Config, s: Log, clock: nat, ws: seq<Write>, t: Log)
    requires Bookkeeping(cfg, s, clock) && NamesInOrder(s) && SizesKept(cfg, s) && Writes(cfg, s, clock, ws, t)
    ensures SizesKept(cfg, t)
    decreases |ws|
  {
    if ws != [] {
      WriteKeepsBookkeeping(cfg, s, clock, ws[0]);
      WriteKeepsSizes(cfg, s, clock, ws[0]);
      hide WriteStep, Bookkeeping, NamesInOrder, SizesKept;
      RunKeepsSizes(cfg, WriteStep(cfg, s, ws[0]), ws[0].r.name2, ws[1..], t);
    }
  }

  /** Over any run since construction: a message whose write began after the second its file was
      opened in, and which left the file bigger than `roll_size_` or found it gone, is the last one
      in that file, and the file is closed. So a file that is already too big, or that has been
      removed, takes at most one such message more. */
  lemma OversizeAndGoneFilesAreClosed(cfg: Config, now: nat, name: nat, ws: seq<Write>, t: Log, i: nat, k: nat)
    requires 0 < now <= name && Writes(cfg, Opened(now, name), name, ws, t)
    requires i < |t.files| && k < |t.files[i].entries| && t.files[i].entries[k].begin > t.files[i].openedAt
    requires cfg.header + Bytes(t.files[i].entries[..k + 1]) > cfg.rollSize || t.files[i].entries[k].gone
    ensures k == |t.files[i].entries| - 1 && i < |t.files| - 1
  {
    OpenedIsValid(cfg, now, name);
    RunKeepsSizes(cfg, Opened(now, name), name, ws, t);
  }

  // ------------------------------------------------------------------ no roll without a reason

  /** Why file f was closed and `next` opened: f was too big, or was found gone, or a new day came. */
  ghost predicate ClosedForReason(cfg: Config, f: File, next: File) {
    || cfg.header + Bytes(f.entries) > cfg.rollSize
    || (exists k :: 0 <= k < |f.entries| && f.entries[k].gone)
    || DayOf(next.openedAt) > DayOf(f.openedAt)
  }

  ghost predicate AllClosedForReason(cfg: Config, files: seq<File>) {
    forall i :: 0 <= i < |files| - 1 ==> ClosedForReason(cfg, files[i], files[i + 1])
  }

  lemma RollForReason(cfg: Config, s: Log, now: nat, name: nat)
    requires s.files != [] && AllClosedForReason(cfg, s.files)
    requires now > s.lastRoll ==> ClosedForReason(cfg, Current(s), File(now, name, []))
    ensures AllClosedForReason(cfg, Roll(s, now, name).files)
  {
    var t := Roll(s, now, name);
    if now > s.lastRoll {
      forall i | 0 <= i < |t.files| - 1 ensures ClosedForReason(cfg, t.files[i], t.files[i + 1]) {
        if i < |s.files| - 1 {
          assert t.files[i] == s.files[i] && t.files[i + 1] == s.files[i + 1];
        } else {
          assert t.files[i] == Current(s) && t.files[i + 1] == File(now, name, []);
        }
      }
    }
  }

  lemma AddForReason(cfg: Config, s: Log, e: Entry)
    requires s.files != [] && AllClosedForReason(cfg, s.files)
    ensures AllClosedForReason(cfg, AddEntry(s, e).files)
  {
    var t := AddEntry(s, e);
    forall i | 0 <= i < |t.files| - 1 ensures ClosedForReason(cfg, t.files[i], t.files[i + 1]) {
      assert t.files[i] == s.files[i] && t.files[i + 1].openedAt == s.files[i + 1].openedAt;
      assert ClosedForReason(cfg, s.files[i], s.files[i + 1]);
    }
  }

  lemma CheckForReason(cfg: Config, s: Log, clock: nat, r: Readings)
    requires Bookkeeping(cfg, s, clock) && AllClosedForReason(cfg, s.files) && clock <= r.check <= r.now2
    ensures AllClosedForReason(cfg, PeriodicCheck(cfg, s, r).files)
  {
    var c := s.(count := 0);
    LaterDayIsLater(s.lastRoll, r.check);
    LaterDayIsLater(r.check, r.now2);
    hide DayOf;
    if DayOf(r.check) != s.startOfPeriod {
      RollForReason(cfg, c, r.now2, r.name2);
    }
  }

  lemma WriteForReason(cfg: Config, s: Log, clock: nat, w: Write)
    requires Bookkeeping(cfg, s, clock) && NamesInOrder(s) && clock <= w.begin && InOrder(w)
    requires AllClosedForReason(cfg, s.files)
    ensures AllClosedForReason(cfg, WriteStep(cfg, s, w).files)
  {
    var e := EntryOf(w);
    var a := AddEntry(s, e);
    AddForReason(cfg, s, e);
    AddKeeps(cfg, s, e, clock);
    ClockMayAdvance(cfg, a, clock, w.r.name1);
    RollKeeps(cfg, a, clock, w.r.now1, w.r.name1);
    var es := Current(a).entries;
    assert es[|es| - 1] == e;
    if e.gone || Written(cfg, Current(a)) > cfg.rollSize {
      RollForReason(cfg, a, w.r.now1, w.r.name1);
    }
    hide Roll, PeriodicCheck, AllClosedForReason, Bookkeeping, NamesInOrder;
    if e.gone {
      CheckForReason(cfg, Roll(a, w.r.now1, w.r.name1), w.r.name1, w.r);
    } else {
      CheckForReason(cfg, a, w.r.name1, w.r);
    }
  }

  lemma {:induction false} RunForReason(cfg: Config, s: Log, clock: nat, ws: seq<Write>, t: Log)
    requires Bookkeeping(cfg, s, clock) && NamesInOrder(s) && Writes(cfg, s, clock, ws, t)
    requires AllClosedForReason(cfg, s.files)
    ensures AllClosedForReason(cfg, t.files)
    decreases |ws|
  {
    if ws != [] {
      WriteKeepsBookkeeping(cfg, s, clock, ws[0]);
      WriteForReason(cfg, s, clock, ws[0]);
      hide WriteStep, Bookkeeping, NamesInOrder, AllClosedForReason;
      RunForReason(cfg, WriteStep(cfg, s, ws[0]), ws[0].r.name2, ws[1..], t);
    }
  }

  /** Over any run since construction: a file that has been closed had grown beyond `roll_size_`, or a
      write had found it gone, or its successor was opened on a later day. */
  lemma NoRollWithoutReason(cfg: Config, now: nat, name: nat, ws: seq<Write>, t: Log, i: nat)
    requires 0 < now <= name && Writes(cfg, Opened(now, name), name, ws, t) && i + 1 < |t.files|
    ensures || cfg.header + Bytes(t.files[i].entries) > cfg.rollSize
            || (exists k :: 0 <= k < |t.files[i].entries| && t.files[i].entries[k].gone)
            || DayOf(t.files[i + 1].openedAt) > DayOf(t.files[i].openedAt)
  {
    OpenedIsValid(cfg, now, name);
    RunForReason(cfg, Opened(now, name), name, ws, t);
    assert ClosedForReason(cfg, t.files[i], t.files[i + 1]);
  }

  lemma CheckedOrCounted(cfg: Config, s: Log, r: Readings)
    ensures var t := PeriodicCheck(cfg, s, r);
            && (s.count + 1 < cfg.checkEveryN ==> t == s.(count := s.count + 1))
            && (s.count + 1 >= cfg.checkEveryN ==> t.count == 0)
            && (t.lastFlush != s.lastFlush ==> |t.files| > |s.files| || r.check - s.lastFlush > cfg.flushInterval)
  {
    hide DayOf;
  }

  /** The clock is looked at, and the day and the flush with it, only by every `check_every_n_`-th
      write that the size or a missing file does not roll for; a flush waits for its interval. */
  lemma ChecksAreRare(cfg: Config, s: Log, w: Write)
    requires s.files != [] && !FindsFileGone(w.r)
    requires Written(cfg, Current(s)) + |w.msg| <= cfg.rollSize
    ensures var t := WriteStep(cfg, s, w);
            && (s.count + 1 < cfg.checkEveryN ==> t == AddEntry(s, EntryOf(w)).(count := s.count + 1))
            && (s.count + 1 >= cfg.checkEveryN ==> t.count == 0)
            && (t.lastFlush != s.lastFlush ==> |t.files| > |s.files| || w.r.check - s.lastFlush > cfg.flushInterval)
  {
    var es, a := Current(s).entries, AddEntry(s, EntryOf(w));
    assert Written(cfg, Current(a)) == Written(cfg, Current(s)) + |w.msg| by {
      assert (es + [EntryOf(w)])[..|es|] == es;
    }
    hide PeriodicCheck, Written, DayOf;
    CheckedOrCounted(cfg, a, w.r);
  }
}
