/** A sequence of snapshots, each joined by `Diff` with the one before it. */
module SnapshotChain {
  import opened Machine
  import opened Stat
  import opened Routes
  import opened Snapshot

  /** The groups known after joining each snapshot of a chain with the one before it. */
  ghost function Chain<V>(raw: seq<map<nat, V>>): map<nat, V>
  {
    if raw == [] then map[] else Carry(raw[|raw| - 1], Chain(raw[..|raw| - 1]))
  }

  /** A snapshot as it was collected. */
  datatype Snap = Snap(time: real, notes: NoteTable)

  /** What the last of these snapshots holds once each has been joined with the one before it. */
  ghost function Chained(raw: seq<Snap>): NoteTable
  {
    if raw == [] then map[]
    else if |raw| == 1 then raw[0].notes
    else
      var n := |raw| - 1;
      var before := Chained(raw[..n]);
      Carry(JoinTable(raw[n].notes, before, raw[n].time - raw[n - 1].time, {}), before)
  }

  // ---------------------------------------------------------------- joining the objects

  ghost function Members(stats: seq<DnetStat>): set<DnetStat>
  {
    set i | 0 <= i < |stats| :: stats[i]
  }

  ghost function GroupSeq(stats: seq<DnetStat>): (r: seq<Groups>)
    reads Members(stats)
    ensures |r| == |stats|
  {
    seq(|stats|, i requires 0 <= i < |stats| reads Members(stats) => stats[i].group)
  }

  /** All backends that stand in some table of the sequence. */
  ghost function Everyone(gss: seq<Groups>): set<StatBackend>
  {
    set i, b | 0 <= i < |gss| && b in BackendsOf(gss[i]) :: b
  }

  ghost function NoteSeq(gss: seq<Groups>): (r: seq<NoteTable>)
    reads Everyone(gss)
    ensures |r| == |gss|
  {
    seq(|gss|, i requires 0 <= i < |gss| reads Everyone(gss) => NotesOf(gss[i]))
  }

  ghost function Times(stats: seq<DnetStat>): (r: seq<real>)
    reads Members(stats)
    ensures |r| == |stats|
  {
    seq(|stats|, i requires 0 <= i < |stats| reads Members(stats) => stats[i].time)
  }

  /** Separately collected snapshots: no object of one is part of another. */
  ghost predicate Apart(gss: seq<Groups>)
  {
    && (forall i :: 0 <= i < |gss| ==> Separate(gss[i]))
    && (forall i, j :: 0 <= i < j < |gss| ==> BackendsOf(gss[i]) !! BackendsOf(gss[j]))
  }

  ghost predicate NoTwins(stats: seq<DnetStat>)
  {
    forall i, j :: 0 <= i < j < |stats| ==> stats[i] != stats[j]
  }

  /** The tables once the first `n` snapshots have been joined. */
  ghost function ChainedUpTo(raw: seq<Snap>, n: nat): (r: seq<NoteTable>)
    ensures |r| == |raw|
  {
    seq(|raw|, i requires 0 <= i < |raw| => if i < n then Chained(raw[..i + 1]) else raw[i].notes)
  }

  ghost function ChainUpTo<V>(raw: seq<map<nat, V>>, n: nat): (r: seq<map<nat, V>>)
    ensures |r| == |raw|
  {
    seq(|raw|, i requires 0 <= i < |raw| => if i < n then Chain(raw[..i + 1]) else raw[i])
  }

  ghost function SnapsOf(notes: seq<NoteTable>, times: seq<real>): (r: seq<Snap>)
    requires |notes| == |times|
    ensures |r| == |notes|
  {
    seq(|notes|, i requires 0 <= i < |notes| => Snap(times[i], notes[i]))
  }

  lemma {:induction false} ChainBackends(raw: seq<Groups>, n: nat)
    requires n <= |raw|
    ensures forall b :: b in BackendsOf(Chain(raw[..n])) ==> exists i :: 0 <= i < n && b in BackendsOf(raw[i])
  {
    hide BackendsOf;
    if n == 0 {
      NoBackends();
    } else {
      assert raw[..n][..n - 1] == raw[..n - 1];
      ChainBackends(raw, n - 1);
      CarriedBackends(raw[n - 1], Chain(raw[..n - 1]));
    }
  }

  lemma {:induction false} NoBackends()
    ensures BackendsOf(Chain([])) == {}
  {
  }

  /** Objects of a snapshot that has not been joined yet are part of no other table. */
  lemma {:induction false} StillApart(raw: seq<Groups>, n: nat, i: nat)
    requires Apart(raw) && n < |raw| && i < |raw| && i != n
    ensures BackendsOf(ChainUpTo(raw, n)[i]) !! BackendsOf(raw[n])
  {
    hide BackendsOf, Chain;
    if i < n {
      ChainBackends(raw, i + 1);
      forall b | b in BackendsOf(ChainUpTo(raw, n)[i]) ensures b !in BackendsOf(raw[n]) {
        var j :| 0 <= j < i + 1 && b in BackendsOf(raw[j]);
        assert BackendsOf(raw[j]) !! BackendsOf(raw[n]);
      }
    }
  }

  lemma {:induction false} ApartIsAligned(gs: Groups, earlier: Groups)
    requires BackendsOf(gs) !! BackendsOf(earlier)
    ensures Aligned(gs, earlier)
  {
    forall g, h, k, j | g in gs && h in earlier && k in gs[g] && j in earlier[h] ensures gs[g][k] != earlier[h][j] {
      assert gs[g][k] in BackendsOf(gs) && earlier[h][j] in BackendsOf(earlier);
    }
  }

  lemma {:induction false} ChainStart(raw: seq<Groups>, snaps: seq<Snap>, notes: seq<NoteTable>)
    requires |notes| == |snaps| && forall i :: 0 <= i < |snaps| ==> snaps[i].notes == notes[i]
    ensures ChainUpTo(raw, 1) == raw && ChainedUpTo(snaps, 1) == notes
  {
    forall i | 0 <= i < |raw| ensures ChainUpTo(raw, 1)[i] == raw[i] {
      if i == 0 {
        assert raw[..1][..0] == [] && Chain(raw[..1][..0]) == map[];
        assert Carry(raw[0], Chain(raw[..1][..0])) == raw[0];
      }
    }
    forall i | 0 <= i < |snaps| ensures ChainedUpTo(snaps, 1)[i] == notes[i] {
    }
  }

  lemma {:induction false} ChainStep(raw: seq<Groups>, n: nat, gss: seq<Groups>)
    requires 0 < n < |raw| && |gss| == |raw|
    requires gss[n] == Carry(raw[n], ChainUpTo(raw, n)[n - 1])
    requires forall i :: 0 <= i < |raw| && i != n ==> gss[i] == ChainUpTo(raw, n)[i]
    ensures gss == ChainUpTo(raw, n + 1)
  {
    assert raw[..n + 1][..n] == raw[..n];
    assert Chain(raw[..n + 1]) == Carry(raw[n], Chain(raw[..n]));
    hide Chain, Carry;
  }

  lemma {:induction false} ChainedStep(raw: seq<Snap>, n: nat, notes: seq<NoteTable>)
    requires 0 < n < |raw| && |notes| == |raw|
    requires var before := ChainedUpTo(raw, n)[n - 1];
             notes[n] == Carry(JoinTable(raw[n].notes, before, raw[n].time - raw[n - 1].time, {}), before)
    requires forall i :: 0 <= i < |raw| && i != n ==> notes[i] == ChainedUpTo(raw, n)[i]
    ensures notes == ChainedUpTo(raw, n + 1)
  {
    ChainedUnfold(raw, n);
    hide Carry, JoinTable, Chained;
  }

  lemma {:induction false} ChainedUnfold(raw: seq<Snap>, n: nat)
    requires 0 < n < |raw|
    ensures var before := Chained(raw[..n]);
            Chained(raw[..n + 1]) == Carry(JoinTable(raw[n].notes, before, raw[n].time - raw[n - 1].time, {}), before)
  {
    hide Carry, JoinTable;
    var front := raw[..n + 1];
    assert front[..n] == raw[..n] && front[n] == raw[n] && front[n - 1] == raw[n - 1];
  }

  /** One join: only the snapshot joined changes, and of the backends only its own. */
  method JoinNext(stats: seq<DnetStat>, n: nat, stat: DnetStat)
    requires 0 < n < |stats| && stat == stats[n] && NoTwins(stats) && Separate(stat.group)
    requires forall i :: 0 <= i < |stats| && i != n ==> BackendsOf(stats[i].group) !! BackendsOf(stat.group)
    modifies stat`group, BackendsOf(stat.group)`note
    ensures stat.group == Carry(old(stat.group), stats[n - 1].group)
    ensures NotesOf(stat.group)
            == Carry(JoinTable(old(NotesOf(stat.group)), old(NotesOf(stats[n - 1].group)), stat.time - stats[n - 1].time, {}),
                     old(NotesOf(stats[n - 1].group)))
    ensures forall i :: 0 <= i < |stats| && i != n ==>
              stats[i].group == old(stats[i].group) && NotesOf(stats[i].group) == old(NotesOf(stats[i].group))
  {
    hide NotesOf, Separate, Aligned, JoinTable, Carry;
    ApartIsAligned(stat.group, stats[n - 1].group);
    Diff(stat, stats[n - 1]);
    forall i | 0 <= i < |stats| && i != n
      ensures stats[i].group == old(stats[i].group) && NotesOf(stats[i].group) == old(NotesOf(stats[i].group))
    {
      assert unchanged(BackendsOf(stats[i].group)`note);
    }
  }

  lemma {:induction false} SequenceRows(stats: seq<DnetStat>)
    ensures forall i :: 0 <= i < |stats| ==> GroupSeq(stats)[i] == stats[i].group && Times(stats)[i] == stats[i].time
    ensures forall i :: 0 <= i < |stats| ==> NoteSeq(GroupSeq(stats))[i] == NotesOf(stats[i].group)
    ensures forall i :: 0 <= i < |stats| ==> stats[i] in Members(stats)
  {
  }

  /**
   Joins each of a sequence of separately collected snapshots with the one before it, as a monitor does by calling `Diff`
   on every new snapshot. In the end every snapshot of the sequence, not only the last, knows the groups that `Chain` of
   the collected ones has, and holds what `Chained` says: no later join touched what an earlier one left.
   */
  method JoinAll(stats: seq<DnetStat>)
    requires NoTwins(stats) && Apart(GroupSeq(stats))
    modifies Members(stats)`group, Everyone(GroupSeq(stats))`note
    ensures GroupSeq(stats) == ChainUpTo(old(GroupSeq(stats)), |stats|)
    ensures NoteSeq(GroupSeq(stats))
            == ChainedUpTo(SnapsOf(old(NoteSeq(GroupSeq(stats))), old(Times(stats))), |stats|)
  {
    ghost var raw, notes, times := GroupSeq(stats), NoteSeq(GroupSeq(stats)), Times(stats);
    ghost var snaps := SnapsOf(notes, times);
    ChainStart(raw, snaps, notes);
    SequenceRows(stats);
    if |stats| == 0 {
      return;
    }
    hide GroupSeq, NoteSeq, Times, Members, Everyone, BackendsOf, NotesOf, ChainUpTo, ChainedUpTo, NoTwins;
    for n := 1 to |stats|
      invariant GroupSeq(stats) == ChainUpTo(raw, n)
      invariant NoteSeq(GroupSeq(stats)) == ChainedUpTo(snaps, n)
    {
      JoinAt(stats, n, stats[n], raw, snaps);
    }
  }

  /** One turn of that loop. */
  method JoinAt(stats: seq<DnetStat>, n: nat, stat: DnetStat, ghost raw: seq<Groups>, ghost snaps: seq<Snap>)
    requires 0 < n < |stats| && stat == stats[n] && NoTwins(stats) && Apart(raw)
    requires |raw| == |snaps| == |stats| && forall i :: 0 <= i < |stats| ==> snaps[i].time == stats[i].time
    requires GroupSeq(stats) == ChainUpTo(raw, n) && NoteSeq(GroupSeq(stats)) == ChainedUpTo(snaps, n)
    modifies stat`group, BackendsOf(raw[n])`note
    ensures GroupSeq(stats) == ChainUpTo(raw, n + 1) && NoteSeq(GroupSeq(stats)) == ChainedUpTo(snaps, n + 1)
  {
    hide GroupSeq, NoteSeq, Times, Members, BackendsOf, NotesOf, NoTwins, Carry, JoinTable, Chain, Chained, Separate;
    SequenceRows(stats);
    ghost var gss, notes := GroupSeq(stats), NoteSeq(GroupSeq(stats));
    assert stat.group == raw[n] && notes[n] == snaps[n].notes;
    forall i | 0 <= i < |stats| && i != n ensures BackendsOf(stats[i].group) !! BackendsOf(stat.group) {
      StillApart(raw, n, i);
    }
    JoinNext(stats, n, stat);
    SequenceRows(stats);
    ChainStep(raw, n, GroupSeq(stats));
    ChainedStep(snaps, n, NoteSeq(GroupSeq(stats)));
  }

  // ---------------------------------------------------------------- what a group keeps

  /** Snapshot `j` is the latest that reported group `g`. */
  ghost predicate Latest<V>(raw: seq<map<nat, V>>, g: nat, j: nat)
  {
    j < |raw| && g in raw[j] && forall i :: j < i < |raw| ==> g !in raw[i]
  }

  /** A group is known exactly when some snapshot of the chain reported it, so the known groups never shrink. */
  lemma {:induction false} ChainKnows<V>(raw: seq<map<nat, V>>, g: nat)
    ensures g in Chain(raw) <==> exists i :: 0 <= i < |raw| && g in raw[i]
  {
    if raw != [] {
      var m := |raw| - 1;
      var front := raw[..m];
      ChainKnows(front, g);
      if g in Chain(front) {
        var i :| 0 <= i < |front| && g in front[i];
        assert g in raw[i];
      }
      if i :| 0 <= i < m && g in raw[i] {
        assert g in front[i];
      }
    }
  }

  /** A group keeps the backend objects of the latest snapshot that reported it. */
  lemma {:induction false} ChainKeepsLatest<V>(raw: seq<map<nat, V>>, g: nat, j: nat)
    requires Latest(raw, g, j)
    ensures g in Chain(raw) && Chain(raw)[g] == raw[j][g]
  {
    var m := |raw| - 1;
    if j < m {
      assert g !in raw[m];
      assert Latest(raw[..m], g, j);
      ChainKeepsLatest(raw[..m], g, j);
    }
  }

  /** Of the snapshots before `n`, `j` is the latest that reported group `g`. */
  ghost predicate LatestBefore(raw: seq<Snap>, n: nat, g: nat, j: nat)
  {
    j < n <= |raw| && g in raw[j].notes && forall i :: j < i < n ==> g !in raw[i].notes
  }

  /** The row as it was collected, or as the join with the chain before it left it: same backends, same readings. */
  lemma {:induction false} RowOfOwn(raw: seq<Snap>, n: nat, g: nat)
    requires n < |raw| && g in raw[n].notes
    ensures g in Chained(raw[..n + 1])
    ensures Chained(raw[..n + 1])[g]
            == if n > 0 && g in Chained(raw[..n])
               then JoinRow(raw[n].notes[g], Chained(raw[..n])[g], raw[n].time - raw[n - 1].time, {})
               else raw[n].notes[g]
  {
    if n > 0 {
      ChainedUnfold(raw, n);
      hide JoinRow, Chained;
    }
  }

  /**
   A group that later snapshots did not report keeps, through all their joins, exactly the readings, rates and
   controllers it had when it was last reported and joined.
   */
  lemma {:induction false} CarriedIsUnchanged(raw: seq<Snap>, n: nat, g: nat, j: nat)
    requires LatestBefore(raw, n, g, j)
    ensures g in Chained(raw[..j + 1]) && g in Chained(raw[..n])
    ensures Chained(raw[..n])[g] == Chained(raw[..j + 1])[g]
    decreases n
  {
    hide JoinTable, JoinRow, Carry, Chained;
    RowOfOwn(raw, j, g);
    if j + 1 < n {
      var m := n - 1;
      CarriedIsUnchanged(raw, m, g, j);
      ChainedUnfold(raw, m);
      assert g !in raw[m].notes;
      CarriedRow(raw[m].notes, Chained(raw[..m]), raw[m].time - raw[m - 1].time, g);
    }
  }

  lemma {:induction false} CarriedRow(now: NoteTable, before: NoteTable, seconds: real, g: nat)
    requires g in before && g !in now
    ensures var t := Carry(JoinTable(now, before, seconds, {}), before); g in t && t[g] == before[g]
  {
  }

  lemma {:induction false} ChainedKnows(raw: seq<Snap>, n: nat, g: nat)
    requires n <= |raw|
    ensures g in Chained(raw[..n]) <==> exists j: nat :: LatestBefore(raw, n, g, j)
  {
    if n > 0 {
      var m := n - 1;
      ChainedKnows(raw, m, g);
      if m > 0 {
        ChainedUnfold(raw, m);
      }
      hide Chained, JoinRow;
      if g in raw[m].notes {
        assert LatestBefore(raw, n, g, m);
      } else if g in Chained(raw[..m]) {
        var j: nat :| LatestBefore(raw, m, g, j);
        assert LatestBefore(raw, n, g, j);
      }
      if j: nat :| LatestBefore(raw, n, g, j) {
        if j < m {
          assert LatestBefore(raw, m, g, j);
        }
      }
    }
  }

  /** The chain's row holds the readings that the latest report brought. */
  lemma {:induction false} RowReadings(raw: seq<Snap>, n: nat, g: nat, j: nat)
    requires LatestBefore(raw, n, g, j)
    ensures g in Chained(raw[..n]) && Chained(raw[..n])[g].Keys == raw[j].notes[g].Keys
    ensures forall k :: k in raw[j].notes[g] ==> Chained(raw[..n])[g][k].reading == raw[j].notes[g][k].reading
  {
    CarriedIsUnchanged(raw, n, g, j);
    RowOfOwn(raw, j, g);
    hide RatesOf, Chained;
  }

  // ---------------------------------------------------------------- what controllers keep

  /**
   A backend keeps the controller it had when its group was last reported; without an earlier report of the backend it is
   as it was collected, controller, rates and all.
   */
  lemma {:induction false} ControllerFollows(raw: seq<Snap>, n: nat, g: nat, k: AddressBackend)
    requires n < |raw| && g in raw[n].notes && k in raw[n].notes[g]
    ensures g in Chained(raw[..n + 1]) && k in Chained(raw[..n + 1])[g]
    ensures forall j: nat :: LatestBefore(raw, n, g, j) && k in raw[j].notes[g] ==>
              && g in Chained(raw[..j + 1]) && k in Chained(raw[..j + 1])[g]
              && Chained(raw[..n + 1])[g][k].pid == Chained(raw[..j + 1])[g][k].pid
    ensures (forall j: nat :: LatestBefore(raw, n, g, j) ==> k !in raw[j].notes[g]) ==>
              Chained(raw[..n + 1])[g][k] == raw[n].notes[g][k]
  {
    RowOfOwn(raw, n, g);
    hide Chained, RatesOf, LatestBefore;
    forall j: nat | LatestBefore(raw, n, g, j) && k in raw[j].notes[g]
      ensures g in Chained(raw[..j + 1]) && k in Chained(raw[..j + 1])[g]
      ensures Chained(raw[..n + 1])[g][k].pid == Chained(raw[..j + 1])[g][k].pid
    {
      PidOfLatest(raw, n, g, k, j);
    }
    if forall j: nat :: LatestBefore(raw, n, g, j) ==> k !in raw[j].notes[g] {
      NewBackendStays(raw, n, g, k);
    }
  }

  lemma {:induction false} PidOfLatest(raw: seq<Snap>, n: nat, g: nat, k: AddressBackend, j: nat)
    requires n < |raw| && g in raw[n].notes && k in raw[n].notes[g] && LatestBefore(raw, n, g, j) && k in raw[j].notes[g]
    ensures g in Chained(raw[..n + 1]) && k in Chained(raw[..n + 1])[g]
    ensures g in Chained(raw[..j + 1]) && k in Chained(raw[..j + 1])[g]
    ensures Chained(raw[..n + 1])[g][k].pid == Chained(raw[..j + 1])[g][k].pid
  {
    hide Chained, RatesOf;
    RowOfOwn(raw, n, g);
    CarriedIsUnchanged(raw, n, g, j);
    RowReadings(raw, n, g, j);
  }

  lemma {:induction false} NewBackendStays(raw: seq<Snap>, n: nat, g: nat, k: AddressBackend)
    requires n < |raw| && g in raw[n].notes && k in raw[n].notes[g]
    requires forall j: nat :: LatestBefore(raw, n, g, j) ==> k !in raw[j].notes[g]
    ensures g in Chained(raw[..n + 1]) && k in Chained(raw[..n + 1])[g]
    ensures Chained(raw[..n + 1])[g][k] == raw[n].notes[g][k]
  {
    hide Chained, RatesOf;
    RowOfOwn(raw, n, g);
    ChainedKnows(raw, n, g);
    if g in Chained(raw[..n]) {
      var j: nat :| LatestBefore(raw, n, g, j);
      RowReadings(raw, n, g, j);
    }
  }

  /** Whenever group `g` is reported from `m` to `n`, backend `k` is in it. */
  ghost predicate KeptFrom(raw: seq<Snap>, m: nat, n: nat, g: nat, k: AddressBackend)
  {
    && m <= n < |raw| && g in raw[m].notes && g in raw[n].notes
    && forall i :: m <= i <= n && g in raw[i].notes ==> k in raw[i].notes[g]
  }

  /** The controller, and with it the pain, survives any chain of joins, carried over or not. */
  lemma {:induction false} PainSurvives(raw: seq<Snap>, m: nat, n: nat, g: nat, k: AddressBackend)
    requires KeptFrom(raw, m, n, g, k)
    ensures g in Chained(raw[..m + 1]) && k in Chained(raw[..m + 1])[g]
    ensures g in Chained(raw[..n + 1]) && k in Chained(raw[..n + 1])[g]
    ensures Chained(raw[..n + 1])[g][k].pid == Chained(raw[..m + 1])[g][k].pid
    decreases n
  {
    hide Chained;
    if m < n {
      var j := LatestReport(raw, n, g, m);
      PidOfLatest(raw, n, g, k, j);
      PainSurvives(raw, m, j, g, k);
    } else {
      ControllerFollows(raw, n, g, k);
    }
  }

  // ---------------------------------------------------------------- what rates mean

  /** Backend `k` of group `g` is in snapshot `n`, and `j` is the latest snapshot before `n` that reported the group. */
  ghost predicate Follows(raw: seq<Snap>, n: nat, g: nat, k: AddressBackend, j: nat)
  {
    && n < |raw| && g in raw[n].notes && k in raw[n].notes[g]
    && LatestBefore(raw, n, g, j) && k in raw[j].notes[g]
  }

  /**
   The rates a backend gets: its counters against those of the latest earlier report, however long ago that was, over the
   time since the snapshot immediately before.
   */
  lemma {:induction false} StoredRates(raw: seq<Snap>, n: nat, g: nat, k: AddressBackend, j: nat)
    requires Follows(raw, n, g, k, j)
    ensures g in Chained(raw[..n + 1]) && k in Chained(raw[..n + 1])[g]
    ensures Chained(raw[..n + 1])[g][k].reading == raw[n].notes[g][k].reading
    ensures Chained(raw[..n + 1])[g][k].rates
            == RatesOf(raw[n].notes[g][k].reading, raw[j].notes[g][k].reading, raw[n].notes[g][k].rates,
                       raw[n].time - raw[n - 1].time)
  {
    RowReadings(raw, n, g, j);
    RowOfOwn(raw, n, g);
    hide RatesOf, Chained;
  }

  ghost predicate Rising(raw: seq<Snap>)
  {
    forall i, j :: 0 <= i < j < |raw| ==> raw[i].time < raw[j].time
  }

  /** One of a command's three counters, and the rate that belongs to it. */
  datatype Counter = Success | Failure | Byte
  {
    function Of(c: Counters): uint64
    {
      match this
      case Success => c.success
      case Failure => c.failures
      case Byte => c.bytes
    }

    function RateIn(r: CommandRates): Float
    {
      match this
      case Success => r.success
      case Failure => r.failures
      case Byte => r.bytes
    }
  }

  /** Command `c` of a backend of a table. */
  ghost predicate Has(t: NoteTable, g: nat, k: AddressBackend, c: string)
  {
    g in t && k in t[g] && c in t[g][k].reading.commands
  }

  ghost function CountOf(t: NoteTable, g: nat, k: AddressBackend, c: string, w: Counter): uint64
    requires Has(t, g, k, c)
  {
    w.Of(t[g][k].reading.commands[c])
  }

  /** The growth of one counter per second that the joined snapshot `n` stores. */
  ghost function StoredRate(raw: seq<Snap>, n: nat, g: nat, k: AddressBackend, c: string, w: Counter): Option<Float>
    requires n < |raw|
  {
    var t := Chained(raw[..n + 1]);
    if g in t && k in t[g] && c in t[g][k].rates.commands then Some(w.RateIn(t[g][k].rates.commands[c])) else None
  }

  lemma {:induction false} RateStored(raw: seq<Snap>, n: nat, g: nat, k: AddressBackend, c: string, w: Counter, j: nat)
    requires Follows(raw, n, g, k, j) && Has(raw[n].notes, g, k, c) && Has(raw[j].notes, g, k, c)
    ensures StoredRate(raw, n, g, k, c, w)
            == Some(Div(Gain(CountOf(raw[n].notes, g, k, c, w), CountOf(raw[j].notes, g, k, c, w)), raw[n].time - raw[n - 1].time))
  {
    StoredRates(raw, n, g, k, j);
    hide Chained, Gain, Div;
  }

  /** The stored rate is a number exactly if time has passed since the snapshot before. */
  lemma {:induction false} RateIsNumberIff(raw: seq<Snap>, n: nat, g: nat, k: AddressBackend, c: string, w: Counter, j: nat)
    requires Follows(raw, n, g, k, j) && Has(raw[n].notes, g, k, c) && Has(raw[j].notes, g, k, c)
    ensures StoredRate(raw, n, g, k, c, w).Some? && (StoredRate(raw, n, g, k, c, w).value.Num? <==> raw[n].time != raw[n - 1].time)
  {
    RateStored(raw, n, g, k, c, w, j);
    hide Chained, Gain, StoredRate;
  }

  /**
   The stored rate is the growth since the report it is measured against, per second elapsed since then, if and only if
   that report is the snapshot immediately before or nothing grew: after a carried-over snapshot the divisor covers the
   last interval only.
   */
  lemma {:induction false} RatePerElapsedIff(raw: seq<Snap>, n: nat, g: nat, k: AddressBackend, c: string, w: Counter, j: nat)
    requires Follows(raw, n, g, k, j) && Has(raw[n].notes, g, k, c) && Has(raw[j].notes, g, k, c) && Rising(raw)
    ensures var now, past := CountOf(raw[n].notes, g, k, c, w), CountOf(raw[j].notes, g, k, c, w);
            StoredRate(raw, n, g, k, c, w) == Some(Div(Gain(now, past), raw[n].time - raw[j].time))
            <==> j == n - 1 || now == past
  {
    RateStored(raw, n, g, k, c, w, j);
    hide Chained, StoredRate;
    var now, past := CountOf(raw[n].notes, g, k, c, w), CountOf(raw[j].notes, g, k, c, w);
    assert Gain(now, past) == 0.0 <==> now == past;
    if j < n - 1 {
      QuotientsDiffer(Gain(now, past), raw[n].time - raw[n - 1].time, raw[n].time - raw[j].time);
    }
  }

  lemma {:induction false} QuotientsDiffer(x: real, d: real, e: real)
    requires x >= 0.0 && 0.0 < d < e
    ensures x / d == x / e <==> x == 0.0
  {
    if x / d == x / e {
      var q := x / d;
      assert q * d == x && q * e == x;
      assert q * (e - d) == 0.0;
    }
  }

  /** Of the snapshots before `n`, `i` is the latest that has the command itself. */
  ghost predicate LatestWith(raw: seq<Snap>, n: nat, g: nat, k: AddressBackend, c: string, i: nat)
  {
    i < n < |raw| && Has(raw[i].notes, g, k, c) && forall m :: i < m < n ==> !Has(raw[m].notes, g, k, c)
  }

  /** As collecting leaves it, the command has no rate yet. */
  ghost predicate Unrated(t: NoteTable, g: nat, k: AddressBackend, c: string)
  {
    Has(t, g, k, c) && c in t[g][k].rates.commands && t[g][k].rates.commands[c] == NO_COMMAND_RATES
  }

  /** In a snapshot as it was collected, every command is. */
  lemma {:induction false} CollectedIsUnrated(t: NoteTable, g: nat, k: AddressBackend, c: string)
    requires AllUnjoined(t) && Has(t, g, k, c)
    ensures Unrated(t, g, k, c)
  {
    assert Unjoined(t[g][k]);
  }

  lemma {:induction false} LatestReport(raw: seq<Snap>, n: nat, g: nat, i: nat) returns (j: nat)
    requires i < n <= |raw| && g in raw[i].notes
    ensures i <= j && LatestBefore(raw, n, g, j)
    decreases n - i
  {
    if m :| i < m < n && g in raw[m].notes {
      j := LatestReport(raw, n, g, m);
    } else {
      j := i;
    }
  }

  /** If the latest report of the group lacks the command, the rate stays as it was collected. */
  lemma {:induction false} RateNotMeasured(raw: seq<Snap>, n: nat, g: nat, k: AddressBackend, c: string, w: Counter, j: nat)
    requires n < |raw| && LatestBefore(raw, n, g, j) && !Has(raw[j].notes, g, k, c) && Unrated(raw[n].notes, g, k, c)
    ensures StoredRate(raw, n, g, k, c, w) == Some(Num(0.0))
  {
    RowReadings(raw, n, g, j);
    RowOfOwn(raw, n, g);
    hide Chained;
  }

  /**
   The stored rate is the growth since the latest snapshot that has the command, per second elapsed since then, if and
   only if that is the snapshot immediately before or nothing grew. Otherwise either the group was carried over and the
   divisor covers the last interval only, or it was there without the command, as after routes alone, and the growth is
   lost.
   */
  lemma {:induction false} RateSinceIff(raw: seq<Snap>, n: nat, g: nat, k: AddressBackend, c: string, w: Counter, i: nat)
    requires LatestWith(raw, n, g, k, c, i) && Unrated(raw[n].notes, g, k, c) && Rising(raw)
    ensures var now, past := CountOf(raw[n].notes, g, k, c, w), CountOf(raw[i].notes, g, k, c, w);
            StoredRate(raw, n, g, k, c, w) == Some(Div(Gain(now, past), raw[n].time - raw[i].time))
            <==> i == n - 1 || now == past
  {
    var j := LatestReport(raw, n, g, i);
    assert raw[n].time - raw[i].time > 0.0;
    hide StoredRate, Chained, Rising;
    if Has(raw[j].notes, g, k, c) {
      RatePerElapsedIff(raw, n, g, k, c, w, j);
    } else {
      RateNotMeasured(raw, n, g, k, c, w, j);
      NoRateIff(CountOf(raw[n].notes, g, k, c, w), CountOf(raw[i].notes, g, k, c, w), raw[n].time - raw[i].time);
    }
  }

  lemma {:induction false} NoRateIff(now: uint64, past: uint64, seconds: real)
    requires seconds > 0.0
    ensures Div(Gain(now, past), seconds) == Num(0.0) <==> now == past
  {
    assert Gain(now, past) == 0.0 <==> now == past;
    ZeroQuotient(Gain(now, past), seconds);
  }

  lemma {:induction false} ZeroQuotient(x: real, d: real)
    requires d > 0.0
    ensures x / d == 0.0 <==> x == 0.0
  {
    if x / d == 0.0 {
      assert x == x / d * d;
    }
  }

  /** The command is reported in every snapshot. */
  ghost predicate Present(raw: seq<Snap>, g: nat, k: AddressBackend, c: string)
  {
    forall i :: 0 <= i < |raw| ==> Has(raw[i].notes, g, k, c)
  }

  ghost function Value(rate: Option<Float>): real
  {
    if rate.Some? && rate.value.Num? then rate.value.value else 0.0
  }

  /** The sum of stored rate times interval over the first `n` joins. */
  ghost function RateTimesInterval(raw: seq<Snap>, n: nat, g: nat, k: AddressBackend, c: string, w: Counter): real
    requires n < |raw|
  {
    if n == 0 then 0.0
    else
      RateTimesInterval(raw, n - 1, g, k, c, w) + Weighted(raw, n, g, k, c, w)
  }

  /** One stored rate times its interval. */
  ghost function Weighted(raw: seq<Snap>, n: nat, g: nat, k: AddressBackend, c: string, w: Counter): real
    requires 0 < n < |raw|
  {
    Value(StoredRate(raw, n, g, k, c, w)) * (raw[n].time - raw[n - 1].time)
  }

  /** How often the counter went down. */
  ghost function Drops(raw: seq<Snap>, n: nat, g: nat, k: AddressBackend, c: string, w: Counter): nat
    requires n < |raw| && Present(raw, g, k, c)
  {
    if n == 0 then 0
    else
      Drops(raw, n - 1, g, k, c, w)
      + if CountOf(raw[n].notes, g, k, c, w) < CountOf(raw[n - 1].notes, g, k, c, w) then 1 else 0
  }

  lemma {:induction false} Cancel(x: real, y: real)
    requires y != 0.0
    ensures x / y * y == x
  {
  }

  lemma {:induction false} RateTimesItsInterval(raw: seq<Snap>, n: nat, g: nat, k: AddressBackend, c: string, w: Counter)
    requires 0 < n < |raw| && Present(raw, g, k, c) && Rising(raw)
    ensures Weighted(raw, n, g, k, c, w)
            == Gain(CountOf(raw[n].notes, g, k, c, w), CountOf(raw[n - 1].notes, g, k, c, w))
  {
    hide StoredRate, Chained;
    assert Has(raw[n].notes, g, k, c) && Has(raw[n - 1].notes, g, k, c);
    assert Follows(raw, n, g, k, n - 1);
    RateStored(raw, n, g, k, c, w, n - 1);
    Cancel(Gain(CountOf(raw[n].notes, g, k, c, w), CountOf(raw[n - 1].notes, g, k, c, w)), raw[n].time - raw[n - 1].time);
  }

  /** `sum` is the growth from `first` to `now`, with 2^64 on top for each drop. */
  ghost predicate Tally(sum: real, first: uint64, now: uint64, drops: nat)
  {
    sum == (now - first + drops * TWO_64) as real
  }

  lemma {:induction false} TallyStep(sum: real, first: uint64, past: uint64, now: uint64, drops: nat)
    requires Tally(sum, first, past, drops)
    ensures Tally(sum + Gain(now, past), first, now, drops + if now < past then 1 else 0)
  {
    assert Gain(now, past) == (now - past + (if now < past then 1 else 0) * TWO_64) as real;
  }

  lemma {:induction false} PresentAt(raw: seq<Snap>, g: nat, k: AddressBackend, c: string, i: nat)
    requires Present(raw, g, k, c) && i < |raw|
    ensures Has(raw[i].notes, g, k, c)
  {
  }

  lemma {:induction false} RatesAddUp(raw: seq<Snap>, n: nat, g: nat, k: AddressBackend, c: string, w: Counter)
    requires n < |raw| && Present(raw, g, k, c) && Rising(raw)
    ensures Tally(RateTimesInterval(raw, n, g, k, c, w), CountOf(raw[0].notes, g, k, c, w), CountOf(raw[n].notes, g, k, c, w),
                  Drops(raw, n, g, k, c, w))
  {
    hide StoredRate, Chained, Rising, Gain, CountOf, Weighted, Present, Has;
    if n > 0 {
      hide Tally;
      PresentAt(raw, g, k, c, 0);
      PresentAt(raw, g, k, c, n - 1);
      PresentAt(raw, g, k, c, n);
      RatesAddUp(raw, n - 1, g, k, c, w);
      RateTimesItsInterval(raw, n, g, k, c, w);
      TallyStep(RateTimesInterval(raw, n - 1, g, k, c, w), CountOf(raw[0].notes, g, k, c, w),
                CountOf(raw[n - 1].notes, g, k, c, w), CountOf(raw[n].notes, g, k, c, w), Drops(raw, n - 1, g, k, c, w));
    }
  }

  lemma {:induction false} NoDropsIff(raw: seq<Snap>, n: nat, g: nat, k: AddressBackend, c: string, w: Counter)
    requires n < |raw| && Present(raw, g, k, c)
    ensures Drops(raw, n, g, k, c, w) == 0
            <==> forall i :: 0 < i <= n ==> CountOf(raw[i - 1].notes, g, k, c, w) <= CountOf(raw[i].notes, g, k, c, w)
  {
    if n > 0 {
      NoDropsIff(raw, n - 1, g, k, c, w);
    }
  }

  /**
   The rates that the joins store account for a counter's growth, last minus first, if and only if the counter never went
   down between two snapshots; each drop adds a spurious 2^64.
   */
  lemma {:induction false} RatesTelescopeIff(raw: seq<Snap>, g: nat, k: AddressBackend, c: string, w: Counter)
    requires raw != [] && Present(raw, g, k, c) && Rising(raw)
    ensures var n := |raw| - 1;
            RateTimesInterval(raw, n, g, k, c, w) == (CountOf(raw[n].notes, g, k, c, w) - CountOf(raw[0].notes, g, k, c, w)) as real
            <==> forall i :: 0 < i <= n ==> CountOf(raw[i - 1].notes, g, k, c, w) <= CountOf(raw[i].notes, g, k, c, w)
  {
    RatesAddUp(raw, |raw| - 1, g, k, c, w);
    NoDropsIff(raw, |raw| - 1, g, k, c, w);
  }

  /** A snapshot of one backend whose one command has succeeded `count` times. */
  ghost function OneCounter(time: real, k: AddressBackend, count: uint64): Snap
  {
    var reading := NO_READING.(commands := map["READ" := Counters(count, 0, 0)]);
    var rates := NO_RATES.(commands := map["READ" := NO_COMMAND_RATES]);
    Snap(time, map[1 := map[k := NewNote().(reading := reading, rates := rates)]])
  }

  /** A server restart between two snapshots, five requests before it and three after, shows as 2^64 - 2 requests. */
  lemma {:induction false} CounterReset(k: AddressBackend)
    ensures var raw := [OneCounter(0.0, k, 5), OneCounter(1.0, k, 3)];
            RateTimesInterval(raw, 1, 1, k, "READ", Success) == (TWO_64 - 2) as real
  {
    var raw := [OneCounter(0.0, k, 5), OneCounter(1.0, k, 3)];
    assert Present(raw, 1, k, "READ");
    RatesAddUp(raw, 1, 1, k, "READ", Success);
    hide RateTimesInterval, StoredRate, Chained;
    assert Drops(raw, 0, 1, k, "READ", Success) == 0;
    assert Drops(raw, 1, 1, k, "READ", Success) == 1;
  }

  /** Two requests in two seconds, with a snapshot in between that lacks the group, are stored as two per second. */
  lemma {:induction false} CarriedRate(k: AddressBackend)
    ensures var raw := [OneCounter(0.0, k, 0), Snap(1.0, map[]), OneCounter(2.0, k, 2)];
            StoredRate(raw, 2, 1, k, "READ", Success) == Some(Num(2.0))
  {
    var raw := [OneCounter(0.0, k, 0), Snap(1.0, map[]), OneCounter(2.0, k, 2)];
    assert LatestBefore(raw, 2, 1, 0);
    RateStored(raw, 2, 1, k, "READ", Success, 0);
    hide StoredRate, Chained;
    assert Gain(2, 0) == 2.0;
  }

  /** A snapshot in which routes name the backend and its server has not answered. */
  ghost function RoutesOnly(time: real, k: AddressBackend): Snap
  {
    Snap(time, map[1 := map[k := NewNote()]])
  }

  /** Two requests in two seconds, with a snapshot of routes alone in between, are stored as none per second. */
  lemma {:induction false} SilentServer(k: AddressBackend)
    ensures var raw := [OneCounter(0.0, k, 0), RoutesOnly(1.0, k), OneCounter(2.0, k, 2)];
            StoredRate(raw, 2, 1, k, "READ", Success) == Some(Num(0.0))
  {
    var raw := [OneCounter(0.0, k, 0), RoutesOnly(1.0, k), OneCounter(2.0, k, 2)];
    assert LatestBefore(raw, 2, 1, 1);
    assert Unrated(raw[2].notes, 1, k, "READ");
    RateNotMeasured(raw, 2, 1, k, "READ", Success, 1);
  }

  // ---------------------------------------------------------------- disk rates

  /** Growth of a counter in units of `unit`, per second; negative where the counter went down. */
  ghost function Growth(now: uint64, past: uint64, unit: real, seconds: real): Float
    requires seconds > 0.0
  {
    Num((now - past) as real * unit / seconds)
  }

  /** The uint64 product does not wrap. */
  ghost predicate Countable(now: uint64, past: uint64)
  {
    past <= now && (now - past) * SECTOR_SIZE < TWO_64
  }

  lemma {:induction false} SectorGainIff(now: uint64, past: uint64)
    ensures SectorGain(now, past) == ((now - past) * SECTOR_SIZE) as real <==> Countable(now, past)
  {
    if Countable(now, past) {
      WrapSmall((now - past) * SECTOR_SIZE);
    }
  }

  lemma {:induction false} SameQuotient(x: real, y: real, d: real)
    requires d > 0.0
    ensures x / d == y / d <==> x == y
  {
    if x / d == y / d {
      assert x == x / d * d && y == y / d * d;
    }
  }

  lemma {:induction false} DiskRateIff(now: uint64, past: uint64, seconds: real)
    requires seconds > 0.0
    ensures Div(SectorGain(now, past), seconds) == Growth(now, past, SECTOR_SIZE as real, seconds) <==> Countable(now, past)
  {
    SectorGainIff(now, past);
    SameQuotient(SectorGain(now, past), ((now - past) * SECTOR_SIZE) as real, seconds);
    assert ((now - past) * SECTOR_SIZE) as real == (now - past) as real * SECTOR_SIZE as real;
  }

  lemma {:induction false} UtilRateIff(now: uint64, past: uint64, seconds: real)
    requires seconds > 0.0
    ensures Div(Gain(now, past) / 1000.0, seconds) == Growth(now, past, 0.001, seconds) <==> past <= now
  {
    assert Gain(now, past) == (now - past) as real <==> past <= now;
    SameQuotient(Gain(now, past) / 1000.0, (now - past) as real * 0.001, seconds);
  }

  /**
   Bytes written and read and disk utilization measure growth since the snapshot immediately before if and only if the
   counters did not go down and, for bytes, the growth in bytes fits 64 bits.
   */
  lemma {:induction false} DiskRatesIff(raw: seq<Snap>, n: nat, g: nat, k: AddressBackend)
    requires 0 < n && Follows(raw, n, g, k, n - 1) && Rising(raw)
    ensures var now, past, seconds := raw[n].notes[g][k].reading, raw[n - 1].notes[g][k].reading, raw[n].time - raw[n - 1].time;
            && g in Chained(raw[..n + 1]) && k in Chained(raw[..n + 1])[g]
            && var rates := Chained(raw[..n + 1])[g][k].rates;
               && (rates.written == Growth(now.writeSectors, past.writeSectors, SECTOR_SIZE as real, seconds)
                   <==> Countable(now.writeSectors, past.writeSectors))
               && (rates.read == Growth(now.readSectors, past.readSectors, SECTOR_SIZE as real, seconds)
                   <==> Countable(now.readSectors, past.readSectors))
               && (rates.util == Growth(now.ioTicks, past.ioTicks, 0.001, seconds) <==> past.ioTicks <= now.ioTicks)
  {
    var now, past, seconds := raw[n].notes[g][k].reading, raw[n - 1].notes[g][k].reading, raw[n].time - raw[n - 1].time;
    StoredRates(raw, n, g, k, n - 1);
    hide Chained, Countable, Growth, Gain, SectorGain, Div, CommandRatesOf, Follows;
    DiskRateIff(now.writeSectors, past.writeSectors, seconds);
    DiskRateIff(now.readSectors, past.readSectors, seconds);
    UtilRateIff(now.ioTicks, past.ioTicks, seconds);
  }

  /**
   Measured against a report further back, which was carried over, they measure growth since then if and only if nothing
   grew, as long as nothing wraps.
   */
  lemma {:induction false} CarriedDiskRatesIff(raw: seq<Snap>, n: nat, g: nat, k: AddressBackend, j: nat)
    requires Follows(raw, n, g, k, j) && j < n - 1 && Rising(raw)
    ensures var now, past, seconds := raw[n].notes[g][k].reading, raw[j].notes[g][k].reading, raw[n].time - raw[j].time;
            && g in Chained(raw[..n + 1]) && k in Chained(raw[..n + 1])[g]
            && var rates := Chained(raw[..n + 1])[g][k].rates;
               && (Countable(now.writeSectors, past.writeSectors) ==>
                     (rates.written == Growth(now.writeSectors, past.writeSectors, SECTOR_SIZE as real, seconds)
                      <==> now.writeSectors == past.writeSectors))
               && (Countable(now.readSectors, past.readSectors) ==>
                     (rates.read == Growth(now.readSectors, past.readSectors, SECTOR_SIZE as real, seconds)
                      <==> now.readSectors == past.readSectors))
               && (past.ioTicks <= now.ioTicks ==>
                     (rates.util == Growth(now.ioTicks, past.ioTicks, 0.001, seconds) <==> now.ioTicks == past.ioTicks))
  {
    var now, past := raw[n].notes[g][k].reading, raw[j].notes[g][k].reading;
    var d, e := raw[n].time - raw[n - 1].time, raw[n].time - raw[j].time;
    StoredRates(raw, n, g, k, j);
    assert 0.0 < d < e;
    hide Chained, Countable, Growth, Gain, SectorGain, Div, CommandRatesOf, Follows, Rising;
    CarriedDiskRate(now.writeSectors, past.writeSectors, d, e);
    CarriedDiskRate(now.readSectors, past.readSectors, d, e);
    CarriedUtilRate(now.ioTicks, past.ioTicks, d, e);
  }

  lemma {:induction false} CarriedDiskRate(now: uint64, past: uint64, d: real, e: real)
    requires 0.0 < d < e
    ensures Countable(now, past) ==>
              (Div(SectorGain(now, past), d) == Growth(now, past, SECTOR_SIZE as real, e) <==> now == past)
  {
    if Countable(now, past) {
      SectorGainIff(now, past);
      var x := ((now - past) * SECTOR_SIZE) as real;
      assert x == (now - past) as real * SECTOR_SIZE as real;
      QuotientsDiffer(x, d, e);
      assert x == 0.0 <==> now == past;
    }
  }

  lemma {:induction false} CarriedUtilRate(now: uint64, past: uint64, d: real, e: real)
    requires 0.0 < d < e
    ensures past <= now ==> (Div(Gain(now, past) / 1000.0, d) == Growth(now, past, 0.001, e) <==> now == past)
  {
    if past <= now {
      var x := (now - past) as real * 0.001;
      assert Gain(now, past) / 1000.0 == x;
      QuotientsDiffer(x, d, e);
      assert x == 0.0 <==> now == past;
    }
  }

  /** A snapshot of one backend that has written `sectors` sectors since its server started. */
  ghost function OneDisk(time: real, k: AddressBackend, sectors: uint64): Snap
  {
    Snap(time, map[1 := map[k := NewNote().(reading := NO_READING.(writeSectors := sectors))]])
  }

  /**
   A snapshot of routes alone has no sectors: its own rate is a wrapped difference, and the rate after it the total since
   the server started.
   */
  lemma {:induction false} SilentDisk(k: AddressBackend)
    ensures var raw := [OneDisk(0.0, k, 10), RoutesOnly(1.0, k), OneDisk(2.0, k, 12)];
            && Knows(Chained(raw[..2]), 1, k) && Chained(raw[..2])[1][k].rates.written == Num((TWO_64 - 5120) as real)
            && Knows(Chained(raw[..3]), 1, k) && Chained(raw[..3])[1][k].rates.written == Num(6144.0)
  {
    var raw := [OneDisk(0.0, k, 10), RoutesOnly(1.0, k), OneDisk(2.0, k, 12)];
    StoredRates(raw, 1, 1, k, 0);
    StoredRates(raw, 2, 1, k, 1);
    hide Chained;
    assert Sub64(0, 10) == TWO_64 - 10;
    ModShift(TWO_64 - 5120, 511);
    WrapSmall(TWO_64 - 5120);
    assert SectorGain(0, 10) == (TWO_64 - 5120) as real;
    WrapSmall(6144);
    assert SectorGain(12, 0) == 6144.0;
  }

  ghost predicate Knows(t: NoteTable, g: nat, k: AddressBackend)
  {
    g in t && k in t[g]
  }
}
