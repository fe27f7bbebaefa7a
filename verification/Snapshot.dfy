/** Joining successive statistics snapshots (`DnetStat.Diff`, elliptics/stat.go). */
module Snapshot {
  import opened Machine
  import opened Stat
  import opened Routes
  import Pid

  const SECTOR_SIZE: uint64 := 512

  /** A uint64 difference read as a number; it wraps when the counter went down. */
  function Gain(now: uint64, before: uint64): (r: real)
    ensures r >= 0.0
  {
    Sub64(now, before) as real
  }

  /** `(now - before) * 512` in uint64 arithmetic. */
  function SectorGain(now: uint64, before: uint64): (r: real)
    ensures r >= 0.0
  {
    Wrap(Sub64(now, before) * SECTOR_SIZE) as real
  }

  function CommandRate(now: Counters, before: Counters, seconds: real): CommandRates
  {
    CommandRates(Div(Gain(now.success, before.success), seconds),
                 Div(Gain(now.failures, before.failures), seconds),
                 Div(Gain(now.bytes, before.bytes), seconds))
  }

  /** Rates of the commands both snapshots report; others keep what they had. */
  ghost function CommandRatesOf(now: map<string, Counters>, before: map<string, Counters>, was: map<string, CommandRates>, seconds: real)
    : map<string, CommandRates>
  {
    map c | c in was.Keys + (now.Keys * before.Keys) ::
      if c in now && c in before then CommandRate(now[c], before[c], seconds) else was[c]
  }

  ghost function RatesOf(now: Reading, before: Reading, was: Rates, seconds: real): Rates
  {
    Rates(Div(SectorGain(now.writeSectors, before.writeSectors), seconds),
          Div(SectorGain(now.readSectors, before.readSectors), seconds),
          Div(Gain(now.ioTicks, before.ioTicks) / 1000.0, seconds),
          CommandRatesOf(now.commands, before.commands, was.commands, seconds))
  }

  /** A backend both snapshots know: its own reading, rates against the earlier reading, and the earlier controller. */
  ghost function JoinNote(now: Note, before: Note, seconds: real): Note
  {
    Note(now.reading, RatesOf(now.reading, before.reading, now.rates, seconds), before.pid)
  }

  type Row = map<AddressBackend, Note>
  type NoteTable = map<nat, Row>

  /** The row after the backends outside `todo` have been joined. */
  ghost function JoinRow(now: Row, before: Row, seconds: real, todo: set<AddressBackend>): Row
  {
    map k | k in now :: if k in before && k !in todo then JoinNote(now[k], before[k], seconds) else now[k]
  }

  /** The table after the groups outside `todo` have been joined. */
  ghost function JoinTable(now: NoteTable, before: NoteTable, seconds: real, todo: set<nat>): NoteTable
  {
    map g | g in now :: if g in before && g !in todo then JoinRow(now[g], before[g], seconds, {}) else now[g]
  }

  /** Groups the newer snapshot lacks are carried over as they were. */
  ghost function Carry<V>(now: map<nat, V>, before: map<nat, V>): map<nat, V>
  {
    map g | g in now.Keys + before.Keys :: if g in now then now[g] else before[g]
  }

  // ---------------------------------------------------------------- the code

  /** The inner loop over one backend's commands. */
  method CommandLoop(now: map<string, Counters>, before: map<string, Counters>, was: map<string, CommandRates>, seconds: real)
    returns (r: map<string, CommandRates>)
    ensures r == CommandRatesOf(now, before, was, seconds)
  {
    hide CommandRate;
    r := was;
    var todo := now.Keys;
    while todo != {}
      invariant todo <= now.Keys
      invariant r.Keys == was.Keys + ((now.Keys - todo) * before.Keys)
      invariant forall c :: c in r ==>
        r[c] == if c in now && c !in todo && c in before then CommandRate(now[c], before[c], seconds) else was[c]
    {
      var c :| c in todo;
      if c in before {
        r := r[c := CommandRate(now[c], before[c], seconds)];
      }
      todo := todo - {c};
    }
  }

  /** One backend present in both snapshots; they may be one and the same object. */
  method DiffBackend(sb: StatBackend, psb: StatBackend, seconds: real)
    modifies sb`note
    ensures sb.note == JoinNote(old(sb.note), old(psb.note), seconds)
  {
    hide CommandRatesOf;
    sb.note := sb.note.(pid := psb.note.pid);
    var now, before := sb.note.reading, psb.note.reading;
    var commands := CommandLoop(now.commands, before.commands, sb.note.rates.commands, seconds);
    sb.note := sb.note.(rates := Rates(Div(SectorGain(now.writeSectors, before.writeSectors), seconds),
                                       Div(SectorGain(now.readSectors, before.readSectors), seconds),
                                       Div(Gain(now.ioTicks, before.ioTicks) / 1000.0, seconds),
                                       commands));
  }

  /** An object both rows hold stands under one key. */
  ghost predicate AlignedRows(row: StatGroup, earlier: StatGroup)
  {
    forall k, j :: k in row && j in earlier && row[k] == earlier[j] ==> k == j
  }

  /** What is still to be read of the earlier row is as it was. */
  ghost predicate Unread(earlier: StatGroup, todo: set<AddressBackend>, before: Row)
    requires before.Keys == earlier.Keys
    reads earlier.Values`note
  {
    forall k :: k in todo && k in earlier ==> earlier[k].note == before[k]
  }

  /** The loop over one group. */
  method DiffGroup(row: StatGroup, earlier: StatGroup, seconds: real)
    requires Injective(row) && AlignedRows(row, earlier)
    modifies row.Values`note
    ensures Notes(row) == JoinRow(old(Notes(row)), old(Notes(earlier)), seconds, {})
  {
    ghost var now, before := Notes(row), Notes(earlier);
    var todo := row.Keys;
    assert Notes(row) == JoinRow(now, before, seconds, todo);
    assert Unread(earlier, todo, before);
    hide JoinNote, Notes, JoinRow, Unread, Injective, AlignedRows;
    while todo != {}
      invariant todo <= row.Keys
      invariant Notes(row) == JoinRow(now, before, seconds, todo)
      invariant Unread(earlier, todo, before)
    {
      var k :| k in todo;
      DiffNext(row, earlier, seconds, k, row[k], now, before, todo);
      todo := todo - {k};
    }
  }

  /** One turn of that loop. */
  method DiffNext(row: StatGroup, earlier: StatGroup, seconds: real, k: AddressBackend, sb: StatBackend,
                  ghost now: Row, ghost before: Row, ghost todo: set<AddressBackend>)
    requires Injective(row) && AlignedRows(row, earlier) && k in todo && todo <= row.Keys && sb == row[k]
    requires now.Keys == row.Keys && before.Keys == earlier.Keys
    requires Notes(row) == JoinRow(now, before, seconds, todo) && Unread(earlier, todo, before)
    modifies sb`note
    ensures Notes(row) == JoinRow(now, before, seconds, todo - {k}) && Unread(earlier, todo - {k}, before)
  {
    hide JoinNote;
    assert sb.note == Notes(row)[k] == now[k];
    if k in earlier {
      DiffBackend(sb, earlier[k], seconds);
      assert sb.note == JoinNote(now[k], before[k], seconds);
    }
  }

  /** An object both snapshots hold stands under one group and key, as a carried-over one does. */
  ghost predicate Aligned(gs: Groups, earlier: Groups)
  {
    forall g, h, k, j ::
      g in gs && h in earlier && k in gs[g] && j in earlier[h] && gs[g][k] == earlier[h][j] ==> g == h && k == j
  }

  lemma {:induction false} AlignedParts(gs: Groups, earlier: Groups, g: nat)
    requires Separate(gs) && Aligned(gs, earlier) && g in gs
    ensures Injective(gs[g]) && gs[g].Values <= BackendsOf(gs)
    ensures g in earlier ==> AlignedRows(gs[g], earlier[g])
    ensures forall h :: h in gs && h != g ==> gs[g].Values !! gs[h].Values
    ensures forall h :: h in earlier && h != g ==> gs[g].Values !! earlier[h].Values
  {
  }

  /** Rows of the earlier snapshot that are still to be read, or carried over, are as they were. */
  ghost predicate UnreadRows(earlier: Groups, keys: set<nat>, todo: set<nat>, before: NoteTable)
    requires before.Keys == earlier.Keys
    reads BackendsOf(earlier)`note
  {
    forall g :: g in earlier && (g in todo || g !in keys) ==> Notes(earlier[g]) == before[g]
  }

  /** The loop over groups. */
  method DiffGroups(gs: Groups, earlier: Groups, seconds: real)
    requires Separate(gs) && Aligned(gs, earlier)
    modifies BackendsOf(gs)`note
    ensures NotesOf(gs) == JoinTable(old(NotesOf(gs)), old(NotesOf(earlier)), seconds, {})
    ensures UnreadRows(earlier, gs.Keys, {}, old(NotesOf(earlier)))
  {
    ghost var now, before := NotesOf(gs), NotesOf(earlier);
    var todo := gs.Keys;
    assert NotesOf(gs) == JoinTable(now, before, seconds, todo);
    assert UnreadRows(earlier, gs.Keys, todo, before);
    hide NotesOf, Notes, BackendsOf, Separate, Aligned, JoinTable, UnreadRows;
    while todo != {}
      invariant todo <= gs.Keys
      invariant NotesOf(gs) == JoinTable(now, before, seconds, todo)
      invariant UnreadRows(earlier, gs.Keys, todo, before)
    {
      var g :| g in todo;
      RowInBackends(gs, g);
      DiffNextGroup(gs, earlier, seconds, g, now, before, todo);
      todo := todo - {g};
    }
  }

  /** One turn of that loop. */
  method DiffNextGroup(gs: Groups, earlier: Groups, seconds: real, g: nat,
                       ghost now: NoteTable, ghost before: NoteTable, ghost todo: set<nat>)
    requires Separate(gs) && Aligned(gs, earlier) && g in todo && todo <= gs.Keys
    requires now.Keys == gs.Keys && before.Keys == earlier.Keys
    requires NotesOf(gs) == JoinTable(now, before, seconds, todo) && UnreadRows(earlier, gs.Keys, todo, before)
    modifies gs[g].Values`note
    ensures NotesOf(gs) == JoinTable(now, before, seconds, todo - {g})
    ensures UnreadRows(earlier, gs.Keys, todo - {g}, before)
  {
    hide NotesOf, BackendsOf, JoinTable, JoinRow;
    ghost var table := NotesOf(gs);
    NoteRows(gs);
    TableRow(now, before, seconds, todo, g);
    JoinOneGroup(gs, earlier, seconds, g);
    NoteRows(gs);
    TableStep(now, before, seconds, todo, g, table, NotesOf(gs));
  }

  /** Joining one group changes that group's row and no other, in either snapshot. */
  method JoinOneGroup(gs: Groups, earlier: Groups, seconds: real, g: nat)
    requires Separate(gs) && Aligned(gs, earlier) && g in gs
    modifies gs[g].Values`note
    ensures Notes(gs[g]) == if g in earlier then JoinRow(old(Notes(gs[g])), old(Notes(earlier[g])), seconds, {})
                            else old(Notes(gs[g]))
    ensures forall h :: h in gs && h != g ==> Notes(gs[h]) == old(Notes(gs[h]))
    ensures forall h :: h in earlier && h != g ==> Notes(earlier[h]) == old(Notes(earlier[h]))
  {
    AlignedParts(gs, earlier, g);
    hide Notes, Separate, Aligned, JoinRow, Injective, AlignedRows, BackendsOf;
    if g in earlier {
      DiffGroup(gs[g], earlier[g], seconds);
    }
  }

  lemma {:induction false} TableRow(now: NoteTable, before: NoteTable, seconds: real, todo: set<nat>, g: nat)
    requires g in now && g in todo
    ensures JoinTable(now, before, seconds, todo)[g] == now[g]
  {
  }

  lemma {:induction false} TableStep(now: NoteTable, before: NoteTable, seconds: real, todo: set<nat>, g: nat, t: NoteTable, u: NoteTable)
    requires t == JoinTable(now, before, seconds, todo) && g in now && g in todo && u.Keys == t.Keys
    requires forall h :: h in t && h != g ==> u[h] == t[h]
    requires u[g] == if g in before then JoinRow(now[g], before[g], seconds, {}) else now[g]
    ensures u == JoinTable(now, before, seconds, todo - {g})
  {
    hide JoinRow;
  }

  /** The last loop of `Diff`. */
  method CarryOver(stat: DnetStat, before: Groups)
    modifies stat`group
    ensures stat.group == Carry(old(stat.group), before)
  {
    var todo := before.Keys;
    while todo != {}
      invariant todo <= before.Keys
      invariant stat.group == map g | g in old(stat.group).Keys + (before.Keys - todo) ::
                                if g in old(stat.group) then old(stat.group)[g] else before[g]
    {
      var g :| g in todo;
      if g !in stat.group {
        stat.group := stat.group[g := before[g]];
      }
      todo := todo - {g};
    }
  }

  lemma {:induction false} CarryNotes(gs: Groups, earlier: Groups, before: NoteTable)
    requires before.Keys == earlier.Keys && UnreadRows(earlier, gs.Keys, {}, before)
    ensures NotesOf(Carry(gs, earlier)) == Carry(NotesOf(gs), before)
  {
  }

  /**
   `Diff`: join this snapshot with an earlier one. Backends both know get rates over the time between the two and the
   earlier controller, groups only the earlier one knows are carried over. A zero interval makes rates infinite or
   undefined. The snapshots may share backends, as they do once one has been joined with the other.
   */
  method Diff(stat: DnetStat, prev: DnetStat?)
    requires Separate(stat.group)
    requires prev != null && prev != stat ==> Aligned(stat.group, prev.group)
    modifies stat`group, BackendsOf(stat.group)`note
    ensures prev == null || prev == stat ==>
              stat.group == old(stat.group) && NotesOf(stat.group) == old(NotesOf(stat.group))
    ensures prev != null && prev != stat ==>
              && stat.group == Carry(old(stat.group), prev.group)
              && NotesOf(stat.group)
                 == Carry(JoinTable(old(NotesOf(stat.group)), old(NotesOf(prev.group)), stat.time - prev.time, {}),
                          old(NotesOf(prev.group)))
  {
    hide NotesOf, BackendsOf, Separate, Aligned, JoinTable, Carry;
    if prev == null || prev == stat {
      return;
    }
    var duration := stat.time - prev.time;
    DiffTables(stat, prev.group, duration);
  }

  /** Both loops of `Diff`. */
  method DiffTables(stat: DnetStat, earlier: Groups, seconds: real)
    requires Separate(stat.group) && Aligned(stat.group, earlier)
    modifies stat`group, BackendsOf(stat.group)`note
    ensures stat.group == Carry(old(stat.group), earlier)
    ensures NotesOf(stat.group)
            == Carry(JoinTable(old(NotesOf(stat.group)), old(NotesOf(earlier)), seconds, {}), old(NotesOf(earlier)))
  {
    hide NotesOf, Notes, Separate, Aligned, JoinTable, Carry, UnreadRows;
    ghost var gs, before := stat.group, NotesOf(earlier);
    DiffGroups(stat.group, earlier, seconds);
    label joined:
    CarryOver(stat, earlier);
    assert unchanged@joined(BackendsOf(gs)`note) && unchanged@joined(BackendsOf(earlier)`note);
    CarryNotes(gs, earlier, before);
  }

  lemma {:induction false} CarriedBackends(gs: Groups, earlier: Groups)
    ensures BackendsOf(Carry(gs, earlier)) <= BackendsOf(gs) + BackendsOf(earlier)
    ensures BackendsOf(gs) <= BackendsOf(Carry(gs, earlier))
  {
    var all := Carry(gs, earlier);
    forall b | b in BackendsOf(gs) ensures b in BackendsOf(all) {
      var g, k :| g in gs && k in gs[g] && gs[g][k] == b;
      assert g in all && k in all[g];
    }
  }

  /** What `Diff` requires holds again afterwards: sharing by carrying over keeps every object under one group and key. */
  lemma {:induction false} CarryKeeps(gs: Groups, earlier: Groups)
    requires Separate(gs) && Separate(earlier) && Aligned(gs, earlier)
    ensures Separate(Carry(gs, earlier)) && Aligned(Carry(gs, earlier), earlier)
  {
    var all := Carry(gs, earlier);
    forall g, h | g in all && h in all && g != h ensures all[g].Values !! all[h].Values {
      if b :| b in all[g].Values && b in all[h].Values {
        var k :| k in all[g] && all[g][k] == b;
        var j :| j in all[h] && all[h][j] == b;
        NotTwice(gs, earlier, g, k, h, j);
        assert false;
      }
    }
    forall g, h, k, j | g in all && h in earlier && k in all[g] && j in earlier[h] && all[g][k] == earlier[h][j]
      ensures g == h && k == j
    {
      assert all[g][k] in all[g].Values && earlier[h][j] in earlier[h].Values;
    }
  }

  lemma {:induction false} NotTwice(gs: Groups, earlier: Groups, g: nat, k: AddressBackend, h: nat, j: AddressBackend)
    requires Separate(gs) && Separate(earlier) && Aligned(gs, earlier) && g != h
    requires g in Carry(gs, earlier) && h in Carry(gs, earlier)
    requires k in Carry(gs, earlier)[g] && j in Carry(gs, earlier)[h]
    ensures Carry(gs, earlier)[g][k] != Carry(gs, earlier)[h][j]
  {
    var all := Carry(gs, earlier);
    assert all[g][k] in all[g].Values && all[h][j] in all[h].Values;
  }
}
