/** What a snapshot's readings and rates say in terms of the monitoring replies it was collected from (elliptics/stat.go). */
module Readings {
  import opened Machine
  import opened Stat
  import opened Routes
  import Snapshot
  import SnapshotChain

  /** One backend of a reply, with the address of the server that replied. */
  datatype Report = Report(addr: DnetAddr, node: VNode)

  ghost function Tagged(addr: DnetAddr, vnodes: seq<VNode>, n: nat): seq<Report>
    requires n <= |vnodes|
  {
    seq(n, i requires 0 <= i < n => Report(addr, vnodes[i]))
  }

  /** All backends of the first `n` replies, in order; a server whose monitoring does not work reports none. */
  ghost function Reported(replies: seq<StatEntry>, n: nat): seq<Report>
    requires n <= |replies|
  {
    if n == 0 then []
    else
      var e := replies[n - 1];
      Reported(replies, n - 1) + if e.monitoring then Tagged(e.addr, e.vnodes, |e.vnodes|) else []
  }

  ghost predicate Fitting(reports: seq<Report>)
  {
    forall i :: 0 <= i < |reports| ==> |reports[i].addr.addr| <= RAW_ADDR_SIZE
  }

  /** The reports applied one after the other. */
  ghost function Fold(t: Table<Note>, reports: seq<Report>): Table<Note>
    requires Fitting(reports)
  {
    if reports == [] then t
    else
      var x := reports[|reports| - 1];
      ApplyNode(Fold(t, reports[..|reports| - 1]), x.addr, x.node)
  }

  lemma {:induction false} FoldTagged(t: Table<Note>, reports: seq<Report>, addr: DnetAddr, vnodes: seq<VNode>, n: nat)
    requires Fitting(reports) && |addr.addr| <= RAW_ADDR_SIZE && n <= |vnodes|
    ensures Fold(t, reports + Tagged(addr, vnodes, n)) == ApplyNodes(Fold(t, reports), addr, vnodes, n)
  {
    hide ApplyNode;
    var all := reports + Tagged(addr, vnodes, n);
    if n == 0 {
      assert all == reports;
    } else {
      FoldTagged(t, reports, addr, vnodes, n - 1);
      assert all[..|all| - 1] == reports + Tagged(addr, vnodes, n - 1);
      assert all[|all| - 1] == Report(addr, vnodes[n - 1]);
    }
  }

  /** Applying replies is applying what they report. */
  lemma {:induction false} EntriesAreReports(t: Table<Note>, replies: seq<StatEntry>, n: nat)
    requires AllFit(replies) && n <= |replies|
    ensures Fitting(Reported(replies, n))
    ensures ApplyEntries(t, replies, n) == Fold(t, Reported(replies, n))
  {
    hide ApplyNodes, Fold;
    if n == 0 {
      FoldNothing(t);
    } else {
      EntriesAreReports(t, replies, n - 1);
      var e := replies[n - 1];
      if e.monitoring {
        FoldTagged(t, Reported(replies, n - 1), e.addr, e.vnodes, |e.vnodes|);
      } else {
        assert Reported(replies, n - 1) + [] == Reported(replies, n - 1);
      }
    }
  }

  lemma {:induction false} FoldNothing(t: Table<Note>)
    ensures Fold(t, []) == t
  {
  }

  // ---------------------------------------------------------------- which report decides

  /** The report is about this backend, and the backend is enabled. */
  ghost predicate Names(x: Report, g: nat, k: AddressBackend)
  {
    x.node.enabled && x.node.group == g && NewAddressBackend(x.addr, x.node.backend) == Some(k)
  }

  /** What one may want to know of a backend: its error code, its measurements, or one command's counters. */
  datatype Topic = Code | Measurements | Command(name: string)

  /** The report says something on the topic: measurements and commands only if it has no error code. */
  ghost predicate Tells(x: Report, g: nat, k: AddressBackend, topic: Topic)
  {
    && Names(x, g, k)
    && match topic
       case Code => true
       case Measurements => x.node.error == 0
       case Command(c) => x.node.error == 0 && c in x.node.commands
  }

  ghost predicate LastTold(reports: seq<Report>, g: nat, k: AddressBackend, topic: Topic, i: nat)
  {
    && i < |reports| && Tells(reports[i], g, k, topic)
    && forall j :: i < j < |reports| ==> !Tells(reports[j], g, k, topic)
  }

  /** The measurements of `r` are those of `v`, each in its own place. */
  ghost predicate Carries(r: Reading, v: VNode)
  {
    && r.vfs.total == v.frSize * v.blocks % 0x1_0000_0000_0000_0000
    && r.vfs.avail == v.bFree * v.bSize % 0x1_0000_0000_0000_0000
    && r.vfs.limit == (if v.blobSizeLimit == 0 || v.blobFlags / 16 % 2 == 1 then r.vfs.total else v.blobSizeLimit)
    && r.vfs.removedSize == v.removedSize && r.vfs.usedSize == v.baseSize
    && r.vfs.recordsTotal == v.recordsTotal && r.vfs.recordsRemoved == v.recordsRemoved
    && r.vfs.recordsCorrupted == v.recordsCorrupted
    && r.defrag.state == v.defragState && r.defrag.started == v.sortStarted && r.defrag.completed == v.sortCompleted
    && r.defrag.status == v.sortStatus
    && (v.defragState == 0 ==> r.defrag.stateName == "not-started")
    && (v.defragState == 1 ==> r.defrag.stateName == "in-progress")
    && (v.defragState != 0 && v.defragState != 1 ==> r.defrag.stateName == "")
    && r.readOnly == v.readOnly && r.delay == v.delay
    && r.writeSectors == v.writeSectors && r.readSectors == v.readSectors && r.ioTicks == v.ioTicks
  }

  /** On this topic the reading says what `v` says. */
  ghost predicate Agrees(r: Reading, v: VNode, topic: Topic)
  {
    match topic
    case Code => r.error == v.error
    case Measurements => Carries(r, v)
    case Command(c) => c in r.commands && c in v.commands && r.commands[c] == v.commands[c]
  }

  ghost predicate Knows(t: Table<Note>, g: nat, k: AddressBackend)
  {
    g in t && k in t[g]
  }

  ghost function NoteAt(t: Table<Note>, g: nat, k: AddressBackend): Note
  {
    if Knows(t, g, k) then t[g][k] else NewNote()
  }

  lemma {:induction false} WrapIsRemainder(x: nat)
    ensures Wrap(x) == x % 0x1_0000_0000_0000_0000
  {
  }

  lemma {:induction false} MergedCarries(was: Note, v: VNode)
    requires v.error == 0
    ensures Carries(Merged(was, v).reading, v)
  {
    WrapIsRemainder(v.frSize * v.blocks);
    WrapIsRemainder(v.bFree * v.bSize);
    hide Wrap;
    var vfs := Space(v);
    assert vfs.total == Wrap(v.frSize * v.blocks) && vfs.avail == Wrap(v.bFree * v.bSize);
  }

  lemma {:induction false} MergedAgrees(was: Note, v: VNode, topic: Topic)
    requires match topic case Code => true case Measurements => v.error == 0 case Command(c) => v.error == 0 && c in v.commands
    ensures Agrees(Merged(was, v).reading, v, topic)
  {
    if v.error == 0 {
      MergedCarries(was, v);
    }
    hide Carries, Space;
  }

  /** A report with an error code changes nothing but the code; one that does not name a command leaves it alone. */
  lemma {:induction false} MergedKeeps(was: Note, v: VNode)
    ensures v.error != 0 ==> Merged(was, v) == was.(reading := was.reading.(error := v.error))
    ensures forall c :: c !in v.commands ==>
              && (c in Merged(was, v).reading.commands <==> c in was.reading.commands)
              && (c in was.reading.commands ==> Merged(was, v).reading.commands[c] == was.reading.commands[c])
    ensures Merged(was, v).pid == was.pid
  {
    hide Space;
  }

  /** One report: the backend it names exists afterwards and is updated; nothing else changes. */
  lemma {:induction false} OneReport(t: Table<Note>, x: Report, g: nat, k: AddressBackend)
    requires |x.addr.addr| <= RAW_ADDR_SIZE
    ensures var u := ApplyNode(t, x.addr, x.node);
            && (Knows(u, g, k) <==> Knows(t, g, k) || Names(x, g, k))
            && (!Names(x, g, k) ==> NoteAt(u, g, k) == NoteAt(t, g, k))
            && (Names(x, g, k) ==> NoteAt(u, g, k) == Merged(NoteAt(t, g, k), x.node))
    ensures !x.node.enabled ==> ApplyNode(t, x.addr, x.node) == t
  {
    hide Merged, NewAddressBackend, NewNote;
    assert NewAddressBackend(x.addr, x.node.backend).Some?;
  }

  lemma {:induction false} ReportAgrees(t: Table<Note>, x: Report, g: nat, k: AddressBackend, topic: Topic, v: VNode)
    requires |x.addr.addr| <= RAW_ADDR_SIZE
    ensures var u := ApplyNode(t, x.addr, x.node);
            && (Tells(x, g, k, topic) ==> Agrees(NoteAt(u, g, k).reading, x.node, topic))
            && (!Tells(x, g, k, topic) && Agrees(NoteAt(t, g, k).reading, v, topic) ==> Agrees(NoteAt(u, g, k).reading, v, topic))
  {
    OneReport(t, x, g, k);
    hide ApplyNode, Merged, NoteAt;
    var was := NoteAt(t, g, k);
    MergedKeeps(was, x.node);
    if Tells(x, g, k, topic) {
      MergedAgrees(was, x.node, topic);
    }
  }

  /**
   Over any sequence of reports, a backend's error code is that of the last report naming it; its measurements, field by
   field, are those of the last one without an error code; and a command's counters are those of the last of these that
   names the command.
   */
  lemma {:induction false} LastReportDecides(t: Table<Note>, reports: seq<Report>, g: nat, k: AddressBackend, topic: Topic, i: nat)
    requires Fitting(reports) && LastTold(reports, g, k, topic, i)
    ensures Knows(Fold(t, reports), g, k) && Agrees(Fold(t, reports)[g][k].reading, reports[i].node, topic)
  {
    var n := |reports| - 1;
    var front, x := reports[..n], reports[n];
    hide ApplyNode, Tells, Agrees;
    OneReport(Fold(t, front), x, g, k);
    ReportAgrees(Fold(t, front), x, g, k, topic, reports[i].node);
    if i < n {
      assert LastTold(front, g, k, topic, i);
      LastReportDecides(t, front, g, k, topic, i);
    } else {
      TellsNames(x, g, k, topic);
    }
  }

  lemma {:induction false} TellsNames(x: Report, g: nat, k: AddressBackend, topic: Topic)
    requires Tells(x, g, k, topic)
    ensures Names(x, g, k)
  {
  }

  /**
   Nothing else has any effect: a backend that no report names is as it was, one that is only reported with error codes
   keeps everything but its code, and a backend is known afterwards exactly if it was known or some report names it.
   Disabled backends and servers without monitoring name none.
   */
  lemma {:induction false} OthersHaveNoSay(t: Table<Note>, reports: seq<Report>, g: nat, k: AddressBackend)
    requires Fitting(reports)
    ensures Knows(Fold(t, reports), g, k) <==> Knows(t, g, k) || exists i :: 0 <= i < |reports| && Names(reports[i], g, k)
    ensures (forall i :: 0 <= i < |reports| ==> !Names(reports[i], g, k)) ==> NoteAt(Fold(t, reports), g, k) == NoteAt(t, g, k)
    ensures (forall i :: 0 <= i < |reports| && Names(reports[i], g, k) ==> reports[i].node.error != 0) ==>
              var now, was := NoteAt(Fold(t, reports), g, k), NoteAt(t, g, k);
              now == was.(reading := was.reading.(error := now.reading.error))
  {
    hide ApplyNode, Names, NoteAt, Merged;
    if reports != [] {
      var n := |reports| - 1;
      var front, x := reports[..n], reports[n];
      OthersHaveNoSay(t, front, g, k);
      OneReport(Fold(t, front), x, g, k);
      MergedKeeps(NoteAt(Fold(t, front), g, k), x.node);
      assert forall i :: 0 <= i < n ==> front[i] == reports[i];
      if exists i :: 0 <= i < n && Names(front[i], g, k) {
        var i :| 0 <= i < n && Names(front[i], g, k);
        assert Names(reports[i], g, k);
      }
      if i :| 0 <= i < n && Names(reports[i], g, k) {
        assert Names(front[i], g, k);
      }
    }
  }

  /** A server without monitoring, or a disabled backend, changes nothing. */
  lemma {:induction false} MuteReplies(t: Table<Note>, e: StatEntry)
    requires |e.addr.addr| <= RAW_ADDR_SIZE
    requires !e.monitoring || forall i :: 0 <= i < |e.vnodes| ==> !e.vnodes[i].enabled
    ensures ApplyEntry(t, e) == t
  {
    if e.monitoring {
      DisabledNodes(t, e.addr, e.vnodes, |e.vnodes|);
    }
  }

  lemma {:induction false} DisabledNodes(t: Table<Note>, addr: DnetAddr, vnodes: seq<VNode>, n: nat)
    requires |addr.addr| <= RAW_ADDR_SIZE && n <= |vnodes| && forall i :: 0 <= i < |vnodes| ==> !vnodes[i].enabled
    ensures ApplyNodes(t, addr, vnodes, n) == t
  {
    if n > 0 {
      DisabledNodes(t, addr, vnodes, n - 1);
    }
  }

  /** What is known of a backend that only routes have named: nothing, and it causes no pain. */
  ghost predicate Blank(n: Note)
  {
    && n.reading.error == 0 && !n.reading.readOnly && n.reading.delay == 0
    && n.reading.vfs.total == n.reading.vfs.avail == n.reading.vfs.limit == n.reading.vfs.removedSize == n.reading.vfs.usedSize == 0
    && n.reading.vfs.recordsTotal == n.reading.vfs.recordsRemoved == n.reading.vfs.recordsCorrupted == 0
    && n.reading.defrag == Defrag(0, "", 0, 0, 0)
    && n.reading.writeSectors == n.reading.readSectors == n.reading.ioTicks == 0 && n.reading.commands == map[]
    && n.rates.written == n.rates.read == n.rates.util == Num(0.0) && n.rates.commands == map[]
    && n.pid.error == n.pid.integral == 0.0 && n.pid.pain == Num(0.0)
  }

  /** A backend of a collected snapshot that no reply names is blank. */
  lemma {:induction false} UnreportedIsBlank(blank: Table<Note>, replies: seq<StatEntry>, g: nat, k: AddressBackend)
    requires AllFit(replies) && Extends(map[], blank, NewNote()) && Knows(ApplyEntries(blank, replies, |replies|), g, k)
    requires forall i :: 0 <= i < |AllReported(replies)| ==> !Names(AllReported(replies)[i], g, k)
    ensures Blank(ApplyEntries(blank, replies, |replies|)[g][k])
  {
    EntriesAreReports(blank, replies, |replies|);
    OthersHaveNoSay(blank, AllReported(replies), g, k);
    hide ApplyEntries, Fold, Reported;
    assert NoteAt(blank, g, k) == NewNote();
  }

  // ---------------------------------------------------------------- two snapshots, joined

  /** The rate is growth per second, which it is exactly if the counter did not go down. */
  ghost predicate Measures(rate: Float, now: uint64, past: uint64, seconds: real)
    requires seconds > 0.0
  {
    rate == Num((now - past) as real / seconds) <==> past <= now
  }

  /** The rate is 512 times the growth per second, which it is exactly if that neither went down nor exceeds 64 bits. */
  ghost predicate MeasuresBytes(rate: Float, now: uint64, past: uint64, seconds: real)
    requires seconds > 0.0
  {
    rate == Num(512.0 * (now - past) as real / seconds) <==> past <= now && 512 * (now - past) < 0x1_0000_0000_0000_0000
  }

  /** The disk rates stored for a backend measure what the two reports say. */
  ghost predicate DiskMeasured(t: Table<Note>, g: nat, k: AddressBackend, now: VNode, past: VNode, seconds: real)
    requires seconds > 0.0
  {
    && Knows(t, g, k)
    && MeasuresBytes(t[g][k].rates.written, now.writeSectors, past.writeSectors, seconds)
    && MeasuresBytes(t[g][k].rates.read, now.readSectors, past.readSectors, seconds)
    && (t[g][k].rates.util == Num((now.ioTicks - past.ioTicks) as real / 1000.0 / seconds) <==> past.ioTicks <= now.ioTicks)
  }

  /** The rates stored for a command measure what the two reports say. */
  ghost predicate CommandMeasured(t: Table<Note>, g: nat, k: AddressBackend, c: string, now: Counters, past: Counters, seconds: real)
    requires seconds > 0.0
  {
    && Knows(t, g, k) && c in t[g][k].rates.commands
    && var rates := t[g][k].rates.commands[c];
       && Measures(rates.success, now.success, past.success, seconds)
       && Measures(rates.failures, now.failures, past.failures, seconds)
       && Measures(rates.bytes, now.bytes, past.bytes, seconds)
  }

  lemma {:induction false} GainMeasures(now: uint64, past: uint64, seconds: real)
    requires seconds > 0.0
    ensures Measures(Div(Snapshot.Gain(now, past), seconds), now, past, seconds)
  {
    SnapshotChain.SameQuotient(Snapshot.Gain(now, past), (now - past) as real, seconds);
  }

  lemma {:induction false} SectorGainMeasures(now: uint64, past: uint64, seconds: real)
    requires seconds > 0.0
    ensures MeasuresBytes(Div(Snapshot.SectorGain(now, past), seconds), now, past, seconds)
  {
    SnapshotChain.SectorGainIff(now, past);
    SnapshotChain.SameQuotient(Snapshot.SectorGain(now, past), 512.0 * (now - past) as real, seconds);
    assert ((now - past) * 512) as real == 512.0 * (now - past) as real;
  }

  lemma {:induction false} TicksMeasure(now: uint64, past: uint64, seconds: real)
    requires seconds > 0.0
    ensures Div(Snapshot.Gain(now, past) / 1000.0, seconds) == Num((now - past) as real / 1000.0 / seconds) <==> past <= now
  {
    SnapshotChain.SameQuotient(Snapshot.Gain(now, past) / 1000.0, (now - past) as real / 1000.0, seconds);
  }

  ghost function Joined(now: Table<Note>, past: Table<Note>, seconds: real): Table<Note>
  {
    Snapshot.Carry(Snapshot.JoinTable(now, past, seconds, {}), past)
  }

  lemma {:induction false} JoinedNote(now: Table<Note>, past: Table<Note>, seconds: real, g: nat, k: AddressBackend)
    requires Knows(now, g, k) && Knows(past, g, k)
    ensures Knows(Joined(now, past, seconds), g, k)
    ensures Joined(now, past, seconds)[g][k].reading == now[g][k].reading
    ensures Joined(now, past, seconds)[g][k].pid == past[g][k].pid
    ensures Joined(now, past, seconds)[g][k].rates
            == Snapshot.RatesOf(now[g][k].reading, past[g][k].reading, now[g][k].rates, seconds)
  {
    hide Snapshot.RatesOf;
  }

  lemma {:induction false} DisksJoin(now: Table<Note>, past: Table<Note>, seconds: real, g: nat, k: AddressBackend, v: VNode, w: VNode)
    requires seconds > 0.0 && Knows(now, g, k) && Knows(past, g, k)
    requires Carries(now[g][k].reading, v) && Carries(past[g][k].reading, w)
    ensures DiskMeasured(Joined(now, past, seconds), g, k, v, w, seconds)
  {
    JoinedNote(now, past, seconds, g, k);
    hide Joined, Snapshot.CommandRatesOf, Snapshot.Gain, Snapshot.SectorGain, Div, MeasuresBytes;
    SectorGainMeasures(v.writeSectors, w.writeSectors, seconds);
    SectorGainMeasures(v.readSectors, w.readSectors, seconds);
    TicksMeasure(v.ioTicks, w.ioTicks, seconds);
  }

  lemma {:induction false} CommandsJoin(now: Table<Note>, past: Table<Note>, seconds: real, g: nat, k: AddressBackend, c: string)
    requires seconds > 0.0 && Knows(now, g, k) && Knows(past, g, k)
    requires c in now[g][k].reading.commands && c in past[g][k].reading.commands
    ensures CommandMeasured(Joined(now, past, seconds), g, k, c, now[g][k].reading.commands[c], past[g][k].reading.commands[c], seconds)
  {
    JoinedNote(now, past, seconds, g, k);
    hide Joined, Snapshot.Gain, Snapshot.SectorGain, Div, Measures;
    var v, w := now[g][k].reading.commands[c], past[g][k].reading.commands[c];
    GainMeasures(v.success, w.success, seconds);
    GainMeasures(v.failures, w.failures, seconds);
    GainMeasures(v.bytes, w.bytes, seconds);
  }

  /** All a snapshot's replies report. */
  ghost function AllReported(replies: seq<StatEntry>): seq<Report>
  {
    Reported(replies, |replies|)
  }

  /** Every rate of the joined table measures what the last reports of the two snapshots say. */
  ghost predicate RatesMeasure(t: Table<Note>, first: seq<StatEntry>, second: seq<StatEntry>, seconds: real)
    requires seconds > 0.0
  {
    var past, now := AllReported(first), AllReported(second);
    && (forall g, k, i: nat, j: nat :: LastTold(past, g, k, Measurements, i) && LastTold(now, g, k, Measurements, j) ==>
          DiskMeasured(t, g, k, now[j].node, past[i].node, seconds))
    && (forall g, k, c, i: nat, j: nat :: LastTold(past, g, k, Command(c), i) && LastTold(now, g, k, Command(c), j) ==>
          && c in now[j].node.commands && c in past[i].node.commands
          && CommandMeasured(t, g, k, c, now[j].node.commands[c], past[i].node.commands[c], seconds))
  }

  lemma {:induction false} JoinMeasures(a: Table<Note>, first: seq<StatEntry>, b: Table<Note>, second: seq<StatEntry>, seconds: real)
    requires AllFit(first) && AllFit(second) && seconds > 0.0
    ensures RatesMeasure(Joined(ApplyEntries(b, second, |second|), ApplyEntries(a, first, |first|), seconds), first, second, seconds)
  {
    var past, now := AllReported(first), AllReported(second);
    EntriesAreReports(a, first, |first|);
    EntriesAreReports(b, second, |second|);
    var s, t := Fold(a, past), Fold(b, now);
    hide Joined, DiskMeasured, CommandMeasured, Fold, Reported, ApplyEntries, Carries;
    forall g, k, i: nat, j: nat | LastTold(past, g, k, Measurements, i) && LastTold(now, g, k, Measurements, j)
      ensures DiskMeasured(Joined(t, s, seconds), g, k, now[j].node, past[i].node, seconds)
    {
      LastReportDecides(a, past, g, k, Measurements, i);
      LastReportDecides(b, now, g, k, Measurements, j);
      DisksJoin(t, s, seconds, g, k, now[j].node, past[i].node);
    }
    forall g, k, c, i: nat, j: nat | LastTold(past, g, k, Command(c), i) && LastTold(now, g, k, Command(c), j)
      ensures c in now[j].node.commands && c in past[i].node.commands
      ensures CommandMeasured(Joined(t, s, seconds), g, k, c, now[j].node.commands[c], past[i].node.commands[c], seconds)
    {
      LastReportDecides(a, past, g, k, Command(c), i);
      LastReportDecides(b, now, g, k, Command(c), j);
      CommandsJoin(t, s, seconds, g, k, c);
    }
  }

  ghost function TimeOf(replies: seq<StatEntry>): real
  {
    if replies == [] then ZERO_TIME else replies[|replies| - 1].time
  }

  /**
   From the replies of two rounds to the rates: two snapshots are collected and the second is joined with the first. For
   every backend and command that both rounds reported, the stored rates are the growth of the reported counters, in bytes
   for disks, per second between the two, exactly where the counters did not go down and no product overflows.
   */
  method TwoSnapshots(routes: seq<RouteEntry>, first: seq<StatEntry>, later: seq<RouteEntry>, second: seq<StatEntry>)
    returns (past: DnetStat, now: DnetStat)
    requires AllWellFormed(routes) && AllWellFormed(later) && AllFit(first) && AllFit(second)
    ensures TimeOf(first) < TimeOf(second) ==>
              RatesMeasure(NotesOf(now.group), first, second, TimeOf(second) - TimeOf(first))
  {
    hide NotesOf, BackendsOf, Separate, ApplyEntries, Snapshot.JoinTable, Snapshot.Carry, RatesMeasure, SharedOut, RingComplete,
      PercentComplete, ListsSorted, AllUnjoined, Extends, Snapshot.Aligned, LongTable, ListsOf, SumsOf, PercentsOf, AllWellFormed,
      NewNote, AllFit;
    ghost var orders, a, b;
    past, orders, a := CollectStat(routes, first);
    now, orders, b := CollectStatBeside(later, second, past);
    SnapshotChain.ApartIsAligned(now.group, past.group);
    Snapshot.Diff(now, past);
    if TimeOf(first) < TimeOf(second) {
      JoinMeasures(a, first, b, second, TimeOf(second) - TimeOf(first));
    }
  }

  /** `CollectStat` leaves an earlier snapshot alone and shares nothing with it. */
  method CollectStatBeside(routes: seq<RouteEntry>, replies: seq<StatEntry>, earlier: DnetStat)
    returns (st: DnetStat, ghost orders: Orders, ghost blank: Table<Note>)
    requires AllWellFormed(routes) && AllFit(replies)
    ensures fresh(st) && fresh(BackendsOf(st.group))
    ensures st != earlier && Separate(st.group) && BackendsOf(st.group) !! BackendsOf(earlier.group)
    ensures NotesOf(st.group) == ApplyEntries(blank, replies, |replies|)
    ensures NotesOf(earlier.group) == old(NotesOf(earlier.group)) && earlier.time == old(earlier.time)
    ensures st.time == TimeOf(replies)
  {
    hide NotesOf, ApplyEntries, SharedOut, RingComplete, PercentComplete, ListsSorted, AllUnjoined, Extends, Separate, LongTable,
      ListsOf, SumsOf, PercentsOf, AllWellFormed, NewNote;
    ghost var known := BackendsOf(earlier.group);
    assert forall b :: b in known ==> allocated(b);
    st, orders, blank := CollectStat(routes, replies);
    hide BackendsOf;
    assert earlier.group == old(earlier.group);
    assert unchanged(known`note);
    forall b | b in known ensures b !in BackendsOf(st.group) {
      assert old(allocated(b));
    }
  }
}
