/**
 * The batch drivers (Parecer-Requisitos.py lines 388-406 and 556-657): the
 * checkpoint file, the full run that resumes from it, and the run that
 * retries only the rows whose action is still blank.
 *
 * The two files a run touches are values: the output table (absent until
 * first written) and the checkpoint record (absent when there is no file).
 * A run returns the files as it leaves them. An exception escaping the row
 * filler ends the run at once, leaving the files as they were last written.
 */
module Batch {
  import opened Wrappers
  import opened Text
  import opened Sequences
  import opened Roster
  import opened Decision

  /** What `json.load` finds in the checkpoint file: the `ultimo_indice` entry, if any, or an unreadable file. */
  datatype CheckpointFile = CheckpointRecord(lastIndex: Option<int>) | Unreadable

  datatype Files = Files(output: Option<seq<OutRow>>, checkpoint: Option<CheckpointFile>)

  /** `ler_checkpoint`: the recorded index, or 0 when the file is missing, unreadable or has no index. */
  function ReadCheckpoint(file: Option<CheckpointFile>): int {
    match file
    case Some(CheckpointRecord(Some(n))) => n
    case _ => 0
  }

  /** `salvar_checkpoint`. */
  function SavedCheckpoint(next: nat): CheckpointFile {
    CheckpointRecord(Some(next))
  }

  /** A saved checkpoint reads back as the index it was saved with. */
  lemma CheckpointRoundTrip(next: nat)
    ensures ReadCheckpoint(Some(SavedCheckpoint(next))) == next
  {
  }

  /** The first row index a run actually visits when it starts from `start`. */
  function Clamp(start: int): nat {
    if start < 0 then 0 else start
  }

  // ---------------------------------------------------------------------------
  // Index lists

  function Last(s: seq<nat>): nat
    requires |s| > 0
  {
    s[|s| - 1]
  }

  /** The indices from `from` up to, not including, `n`. */
  function Upto(from: nat, n: nat): (r: seq<nat>)
    ensures Increasing(r) && InRange(r, n)
    ensures forall k :: 0 <= k < |r| ==> from <= r[k]
    ensures forall i :: from <= i < n ==> i in r
    decreases n
  {
    if n <= from then [] else Upto(from, n - 1) + [n - 1]
  }

  /** The indices `idx` of a table of `n` rows that pass `if idx < ultimo_indice: continue`. */
  function Range(start: int, n: nat): seq<nat> {
    Upto(Clamp(start), n)
  }

  /** The indices of the rows whose action is blank after stripping, in order. */
  function BlankActions(table: seq<OutRow>): (r: seq<nat>)
    ensures Increasing(r) && InRange(r, |table|)
    ensures forall k :: 0 <= k < |r| ==> IsBlank(table[r[k]].action)
    ensures forall i :: 0 <= i < |table| && IsBlank(table[i].action) ==> i in r
    decreases |table|
  {
    if |table| == 0 then []
    else
      var n := |table| - 1;
      var init := BlankActions(table[..n]);
      assert forall k :: 0 <= k < |init| ==> table[init[k]] == table[..n][init[k]];
      if IsBlank(table[n].action) then init + [n] else init
  }

  // ---------------------------------------------------------------------------
  // The row loop shared by both runs

  /** Which driver runs the loop: they differ only in what they save after each row. */
  datatype Mode = Complete | FailuresOnly

  /**
   * What is written after row `i` is filled: the full run saves the next
   * index as checkpoint and the table on every tenth row; the failure run
   * saves the table after every row.
   */
  function Persist(mode: Mode, files: Files, i: nat, table: seq<OutRow>): Files {
    match mode
    case Complete =>
      var saved := files.(checkpoint := Some(SavedCheckpoint(i + 1)));
      if (i + 1) % 10 == 0 then saved.(output := Some(table)) else saved
    case FailuresOnly => files.(output := Some(table))
  }

  /** The row filler as the loop sees it: a row to the filled row or a crash. */
  type Filler = OutRow -> Filling

  /** `preencher_linha` driving the given browser, called with the stripped id read from the row. */
  function RowFiller(browser: Browser): Filler {
    (row: OutRow) => FillRow(row, Strip(row.proposal), browser)
  }

  /** The row has a proposal id to search for. */
  predicate HasProposal(row: OutRow) {
    !IsBlank(row.proposal)
  }

  /** The table and files after the loop, the rows filled in order, and the row whose filling crashed. */
  datatype Pass = Pass(table: seq<OutRow>, files: Files, filled: seq<nat>, crashedAt: Option<nat>)

  /**
   * The loop over the rows listed in `todo`: a row whose stripped id is empty
   * is skipped; otherwise it is filled and the mode's files are written; a
   * crash stops the loop.
   */
  function Process(mode: Mode, table: seq<OutRow>, files: Files, todo: seq<nat>, fill: Filler): (r: Pass)
    requires Increasing(todo) && InRange(todo, |table|)
    ensures |r.table| == |table|
    decreases |todo|
  {
    if |todo| == 0 then Pass(table, files, [], None)
    else
      var i := todo[0];
      assert Increasing(todo[1..]) && InRange(todo[1..], |table|);
      if !HasProposal(table[i]) then Process(mode, table, files, todo[1..], fill)
      else
        match fill(table[i])
        case Crashed => Pass(table, files, [], Some(i))
        case Filled(row) =>
          var t := table[i := row];
          var rest := Process(mode, t, Persist(mode, files, i, t), todo[1..], fill);
          rest.(filled := [i] + rest.filled)
  }

  /** The outcome of filling row `i` of `table`. */
  function Fill(table: seq<OutRow>, i: nat, fill: Filler): Filling
    requires i < |table|
  {
    fill(table[i])
  }

  /** Putting the first index of `todo` before a list drawn in order from the rest of `todo` keeps it in order and within `todo`. */
  lemma PrependVisits(todo: seq<nat>, rest: seq<nat>)
    requires |todo| > 0 && Increasing(todo)
    requires Increasing(rest) && forall k :: 0 <= k < |rest| ==> rest[k] in todo[1..]
    ensures Increasing([todo[0]] + rest)
    ensures forall k :: 0 <= k < |rest| + 1 ==> ([todo[0]] + rest)[k] in todo
  {
    var s := [todo[0]] + rest;
    forall k | 0 < k < |s|
      ensures todo[0] < s[k] && s[k] in todo
    {
      assert s[k] == rest[k - 1];
      var m :| 0 <= m < |todo| - 1 && todo[1..][m] == s[k];
      assert todo[m + 1] == s[k];
    }
  }

  /** The loop fills rows of `todo`, in increasing order. */
  lemma {:induction false} ProcessVisits(mode: Mode, table: seq<OutRow>, files: Files, todo: seq<nat>, fill: Filler)
    requires Increasing(todo) && InRange(todo, |table|)
    ensures var r := Process(mode, table, files, todo, fill);
            && Increasing(r.filled)
            && (forall k :: 0 <= k < |r.filled| ==> r.filled[k] in todo)
    decreases |todo|
  {
    if |todo| > 0 {
      var i := todo[0];
      var tail := todo[1..];
      assert Increasing(tail) && InRange(tail, |table|);
      if !HasProposal(table[i]) {
        ProcessVisits(mode, table, files, tail, fill);
        var r := Process(mode, table, files, todo, fill);
        assert r == Process(mode, table, files, tail, fill);
        forall k | 0 <= k < |r.filled| ensures r.filled[k] in todo {
          assert r.filled[k] in tail;
        }
      } else {
        match fill(table[i])
        case Crashed =>
        case Filled(row) =>
          var t := table[i := row];
          var after := Persist(mode, files, i, t);
          ProcessVisits(mode, t, after, tail, fill);
          var rest := Process(mode, t, after, tail, fill);
          assert Process(mode, table, files, todo, fill).filled == [i] + rest.filled;
          PrependVisits(todo, rest.filled);
      }
    }
  }

  /** Every row the loop fills lies within the table and has a proposal id there. */
  lemma {:induction false} ProcessEligible(mode: Mode, table: seq<OutRow>, files: Files, todo: seq<nat>, fill: Filler)
    requires Increasing(todo) && InRange(todo, |table|)
    ensures var r := Process(mode, table, files, todo, fill);
            forall k :: 0 <= k < |r.filled| ==> r.filled[k] < |table| && HasProposal(table[r.filled[k]])
    decreases |todo|
  {
    if |todo| > 0 {
      var i := todo[0];
      var tail := todo[1..];
      assert Increasing(tail) && InRange(tail, |table|);
      if !HasProposal(table[i]) {
        ProcessEligible(mode, table, files, tail, fill);
        assert var q := Process(mode, table, files, tail, fill);
          forall k :: 0 <= k < |q.filled| ==> q.filled[k] < |table| && HasProposal(table[q.filled[k]]);
        assert Process(mode, table, files, todo, fill) == Process(mode, table, files, tail, fill);
      } else {
        match fill(table[i])
        case Crashed =>
        case Filled(row) =>
          var t := table[i := row];
          var after := Persist(mode, files, i, t);
          ProcessEligible(mode, t, after, tail, fill);
          ProcessVisits(mode, t, after, tail, fill);
          var rest := Process(mode, t, after, tail, fill);
          var r := Process(mode, table, files, todo, fill);
          assert r.filled == [i] + rest.filled;
          forall k | 0 <= k < |r.filled| ensures r.filled[k] < |table| && HasProposal(table[r.filled[k]]) {
            if k > 0 {
              var j := rest.filled[k - 1];
              var m :| 0 <= m < |tail| && tail[m] == j;
              assert todo[m + 1] == j && j != i;
            }
          }
      }
    }
  }

  /**
   * A crash happens on a row of `todo` with a proposal id whose filling
   * crashes, after every row the loop filled.
   */
  lemma {:induction false} ProcessCrash(mode: Mode, table: seq<OutRow>, files: Files, todo: seq<nat>, fill: Filler)
    requires Increasing(todo) && InRange(todo, |table|)
    ensures var r := Process(mode, table, files, todo, fill);
            r.crashedAt.Some? ==>
              && r.crashedAt.value in todo && HasProposal(table[r.crashedAt.value])
              && Fill(table, r.crashedAt.value, fill).Crashed?
              && InRange(r.filled, r.crashedAt.value)
    decreases |todo|
  {
    if |todo| > 0 {
      var i := todo[0];
      var tail := todo[1..];
      assert Increasing(tail) && InRange(tail, |table|);
      if !HasProposal(table[i]) {
        ProcessCrash(mode, table, files, tail, fill);
        var q := Process(mode, table, files, tail, fill);
        assert q.crashedAt.Some? ==> q.crashedAt.value in tail;
        assert Process(mode, table, files, todo, fill) == q;
      } else {
        match fill(table[i])
        case Crashed =>
        case Filled(row) =>
          var t := table[i := row];
          var after := Persist(mode, files, i, t);
          ProcessCrash(mode, t, after, tail, fill);
          var rest := Process(mode, t, after, tail, fill);
          var r := Process(mode, table, files, todo, fill);
          assert r.filled == [i] + rest.filled && r.crashedAt == rest.crashedAt;
          if rest.crashedAt.Some? {
            var c := rest.crashedAt.value;
            var m :| 0 <= m < |tail| && tail[m] == c;
            assert todo[m + 1] == c && i < c && t[c] == table[c];
            PrependInRange(i, rest.filled, c);
          }
      }
    }
  }

  lemma PrependInRange(i: nat, rest: seq<nat>, n: nat)
    requires i < n && InRange(rest, n)
    ensures InRange([i] + rest, n)
  {
    forall k | 0 < k < |rest| + 1 ensures ([i] + rest)[k] < n {
      assert ([i] + rest)[k] == rest[k - 1];
    }
  }

  /** The loop fills every row of `todo` with a proposal id before the crash, or all of them when there is none. */
  lemma {:induction false} ProcessCompletes(mode: Mode, table: seq<OutRow>, files: Files, todo: seq<nat>, fill: Filler)
    requires Increasing(todo) && InRange(todo, |table|)
    ensures var r := Process(mode, table, files, todo, fill);
            forall j ::
              (j in todo && HasProposal(table[j]) && (r.crashedAt.None? || j < r.crashedAt.value))
              ==> j in r.filled
    decreases |todo|
  {
    if |todo| > 0 {
      var i := todo[0];
      var tail := todo[1..];
      assert Increasing(tail) && InRange(tail, |table|);
      assert todo == [i] + tail;
      if !HasProposal(table[i]) {
        ProcessCompletes(mode, table, files, tail, fill);
      } else {
        match fill(table[i])
        case Crashed =>
        case Filled(row) =>
          var t := table[i := row];
          var after := Persist(mode, files, i, t);
          ProcessCompletes(mode, t, after, tail, fill);
          var rest := Process(mode, t, after, tail, fill);
          var r := Process(mode, table, files, todo, fill);
          assert r.filled == [i] + rest.filled && r.crashedAt == rest.crashedAt;
          forall j | j in todo && HasProposal(table[j]) && (r.crashedAt.None? || j < r.crashedAt.value)
            ensures j in r.filled
          {
            if j != i {
              assert j in tail && t[j] == table[j];
            }
          }
      }
    }
  }

  /** Rows the loop did not fill are unchanged; a loop that fills nothing leaves the table as it was. */
  lemma {:induction false} ProcessKeeps(mode: Mode, table: seq<OutRow>, files: Files, todo: seq<nat>, fill: Filler)
    requires Increasing(todo) && InRange(todo, |table|)
    ensures var r := Process(mode, table, files, todo, fill);
            && (forall i :: 0 <= i < |table| && i !in r.filled ==> r.table[i] == table[i])
            && (|r.filled| == 0 ==> r.table == table)
    decreases |todo|
  {
    if |todo| > 0 {
      var i := todo[0];
      var tail := todo[1..];
      assert Increasing(tail) && InRange(tail, |table|);
      if !HasProposal(table[i]) {
        ProcessKeeps(mode, table, files, tail, fill);
        assert var q := Process(mode, table, files, tail, fill);
          && (forall j :: 0 <= j < |table| && j !in q.filled ==> q.table[j] == table[j])
          && (|q.filled| == 0 ==> q.table == table);
        assert Process(mode, table, files, todo, fill) == Process(mode, table, files, tail, fill);
      } else {
        match fill(table[i])
        case Crashed =>
        case Filled(row) =>
          var t := table[i := row];
          var after := Persist(mode, files, i, t);
          ProcessKeeps(mode, t, after, tail, fill);
          var rest := Process(mode, t, after, tail, fill);
          var r := Process(mode, table, files, todo, fill);
          assert r.filled == [i] + rest.filled && r.table == rest.table;
          forall j | 0 <= j < |table| && j !in r.filled
            ensures r.table[j] == table[j]
          {
            assert j != i && j !in rest.filled;
          }
      }
    }
  }

  /** Each row the loop filled is what the row filler makes of the row as it was before the loop. */
  lemma {:induction false} ProcessFills(mode: Mode, table: seq<OutRow>, files: Files, todo: seq<nat>, fill: Filler)
    requires Increasing(todo) && InRange(todo, |table|)
    ensures var r := Process(mode, table, files, todo, fill);
            forall i :: 0 <= i < |table| && i in r.filled ==> Fill(table, i, fill) == Filled(r.table[i])
    decreases |todo|
  {
    if |todo| > 0 {
      var i := todo[0];
      var tail := todo[1..];
      assert Increasing(tail) && InRange(tail, |table|);
      if !HasProposal(table[i]) {
        ProcessFills(mode, table, files, tail, fill);
        assert var q := Process(mode, table, files, tail, fill);
          forall j :: 0 <= j < |table| && j in q.filled ==> Fill(table, j, fill) == Filled(q.table[j]);
        assert Process(mode, table, files, todo, fill) == Process(mode, table, files, tail, fill);
      } else {
        match fill(table[i])
        case Crashed =>
        case Filled(row) =>
          var t := table[i := row];
          var after := Persist(mode, files, i, t);
          ProcessFills(mode, t, after, tail, fill);
          ProcessKeeps(mode, t, after, tail, fill);
          ProcessVisits(mode, t, after, tail, fill);
          var rest := Process(mode, t, after, tail, fill);
          var r := Process(mode, table, files, todo, fill);
          assert r.filled == [i] + rest.filled && r.table == rest.table;
          assert i !in rest.filled by {
            forall k | 0 <= k < |rest.filled| ensures rest.filled[k] != i {
              var m :| 0 <= m < |tail| && tail[m] == rest.filled[k];
              assert todo[m + 1] == rest.filled[k];
            }
          }
          forall j | 0 <= j < |table| && j in r.filled
            ensures Fill(table, j, fill) == Filled(r.table[j])
          {
            if j == i {
              assert r.table[i] == t[i] == row;
            } else {
              assert j in rest.filled && t[j] == table[j];
              assert Fill(t, j, fill) == Filled(rest.table[j]);
            }
          }
      }
    }
  }

  /**
   * The checkpoint the loop leaves: untouched when it filled nothing or in
   * the failure run; otherwise the full run's checkpoint names the row
   * after the last one filled.
   */
  lemma {:induction false} ProcessCheckpoint(mode: Mode, table: seq<OutRow>, files: Files, todo: seq<nat>, fill: Filler)
    requires Increasing(todo) && InRange(todo, |table|)
    ensures var r := Process(mode, table, files, todo, fill);
            && (|r.filled| == 0 ==> r.files == files)
            && (mode.FailuresOnly? ==> r.files.checkpoint == files.checkpoint)
            && (mode.Complete? && |r.filled| > 0 ==> r.files.checkpoint == Some(SavedCheckpoint(Last(r.filled) + 1)))
    decreases |todo|
  {
    if |todo| > 0 {
      var i := todo[0];
      var tail := todo[1..];
      assert Increasing(tail) && InRange(tail, |table|);
      if !HasProposal(table[i]) {
        ProcessCheckpoint(mode, table, files, tail, fill);
      } else {
        match fill(table[i])
        case Crashed =>
        case Filled(row) =>
          var t := table[i := row];
          var after := Persist(mode, files, i, t);
          ProcessCheckpoint(mode, t, after, tail, fill);
          var rest := Process(mode, t, after, tail, fill);
          var r := Process(mode, table, files, todo, fill);
          assert r.filled == [i] + rest.filled && r.files == rest.files;
          if |rest.filled| > 0 {
            assert Last(r.filled) == Last(rest.filled);
          } else {
            assert r.files == after;
          }
      }
    }
  }

  /**
   * The table the loop leaves on disk is the table as the loop left it
   * whenever the last filled row was saved: every row in the failure run,
   * every tenth in the full run.
   */
  lemma {:induction false} ProcessSaves(mode: Mode, table: seq<OutRow>, files: Files, todo: seq<nat>, fill: Filler)
    requires Increasing(todo) && InRange(todo, |table|)
    ensures var r := Process(mode, table, files, todo, fill);
            |r.filled| > 0 && (mode.FailuresOnly? || (Last(r.filled) + 1) % 10 == 0) ==>
              r.files.output == Some(r.table)
    decreases |todo|
  {
    if |todo| > 0 {
      var i := todo[0];
      var tail := todo[1..];
      assert Increasing(tail) && InRange(tail, |table|);
      if !HasProposal(table[i]) {
        ProcessSaves(mode, table, files, tail, fill);
        assert Process(mode, table, files, todo, fill) == Process(mode, table, files, tail, fill);
      } else {
        match fill(table[i])
        case Crashed =>
        case Filled(row) =>
          var t := table[i := row];
          var after := Persist(mode, files, i, t);
          ProcessSaves(mode, t, after, tail, fill);
          var rest := Process(mode, t, after, tail, fill);
          var r := Process(mode, table, files, todo, fill);
          assert r.filled == [i] + rest.filled && r.files == rest.files && r.table == rest.table;
          if |rest.filled| > 0 {
            assert Last(r.filled) == Last(rest.filled);
          } else {
            ProcessKeeps(mode, t, after, tail, fill);
            ProcessCheckpoint(mode, t, after, tail, fill);
            assert r.table == t && r.files == after && Last(r.filled) == i;
          }
      }
    }
  }

  /** No index in `filled` is that of a tenth row, after which the full run saves the table. */
  predicate NoTenthRow(filled: seq<nat>) {
    forall k :: 0 <= k < |filled| ==> (filled[k] + 1) % 10 != 0
  }

  lemma NoTenthRowSplit(i: nat, rest: seq<nat>)
    requires NoTenthRow([i] + rest)
    ensures (i + 1) % 10 != 0 && NoTenthRow(rest)
  {
    assert ([i] + rest)[0] == i;
    forall k | 0 <= k < |rest| ensures (rest[k] + 1) % 10 != 0 {
      assert ([i] + rest)[k + 1] == rest[k];
    }
  }

  /** In the full run, a loop that fills no tenth row leaves the saved table as it was. */
  lemma {:induction false} ProcessSkipsSave(table: seq<OutRow>, files: Files, todo: seq<nat>, fill: Filler)
    requires Increasing(todo) && InRange(todo, |table|)
    ensures var r := Process(Complete, table, files, todo, fill);
            NoTenthRow(r.filled) ==> r.files.output == files.output
    decreases |todo|
  {
    if |todo| > 0 {
      var i := todo[0];
      var tail := todo[1..];
      assert Increasing(tail) && InRange(tail, |table|);
      if !HasProposal(table[i]) {
        ProcessSkipsSave(table, files, tail, fill);
        assert Process(Complete, table, files, todo, fill) == Process(Complete, table, files, tail, fill);
      } else {
        match fill(table[i])
        case Crashed =>
        case Filled(row) =>
          var t := table[i := row];
          var after := Persist(Complete, files, i, t);
          ProcessSkipsSave(t, after, tail, fill);
          var rest := Process(Complete, t, after, tail, fill);
          var r := Process(Complete, table, files, todo, fill);
          assert r.filled == [i] + rest.filled && r.files == rest.files;
          if NoTenthRow(r.filled) {
            NoTenthRowSplit(i, rest.filled);
            assert after.output == files.output;
          }
      }
    }
  }

  /** A loop whose every listed row lacks a proposal id fills nothing and leaves everything as it was. */
  lemma {:induction false} ProcessSkipsAll(mode: Mode, table: seq<OutRow>, files: Files, todo: seq<nat>, fill: Filler)
    requires Increasing(todo) && InRange(todo, |table|)
    requires forall k :: 0 <= k < |todo| ==> !HasProposal(table[todo[k]])
    ensures Process(mode, table, files, todo, fill) == Pass(table, files, [], None)
    decreases |todo|
  {
    if |todo| > 0 {
      var tail := todo[1..];
      assert Increasing(tail) && InRange(tail, |table|);
      assert forall k :: 0 <= k < |tail| ==> tail[k] == todo[k + 1];
      ProcessSkipsAll(mode, table, files, tail, fill);
    }
  }

  // ---------------------------------------------------------------------------
  // The full run

  /** What a run leaves behind: the files, the table it worked on, the rows it filled and where it crashed. */
  datatype Outcome = Outcome(files: Files, table: seq<OutRow>, filled: seq<nat>, crashedAt: Option<nat>)

  /** Every row of the filtered roster carries a proposal id. */
  lemma FilteredRosterHasIds(input: Option<Sheet>, filter: string)
    requires ReadRoster(input).Some?
    ensures var table := FilterByInstrument(ReadRoster(input).value, filter);
            forall i :: 0 <= i < |table| ==> HasProposal(table[i])
  {
    var roster := ReadRoster(input).value;
    var table := FilterByInstrument(roster, filter);
    RosterIdsUnique(input);
    SubsequenceMembers(table, roster);
    forall i | 0 <= i < |table| ensures HasProposal(table[i]) {
      assert table[i] in roster;
    }
  }

  /** The full run's loop: every row from the checkpoint on, in order. */
  function Resume(table: seq<OutRow>, files: Files, fill: Filler): Pass {
    Process(Complete, table, files, Range(ReadCheckpoint(files.checkpoint), |table|), fill)
  }

  /** `out` is `table` with every row from `start` on replaced by what the filler makes of it. */
  predicate ResumedFrom(table: seq<OutRow>, out: seq<OutRow>, start: int, fill: Filler) {
    && |out| == |table|
    && forall i :: 0 <= i < |table| ==>
         if start <= i then Fill(table, i, fill) == Filled(out[i]) else out[i] == table[i]
  }

  /** The filler succeeded on every row of `filled`. */
  predicate FilledWell(table: seq<OutRow>, filled: seq<nat>, fill: Filler) {
    forall k :: 0 <= k < |filled| ==> filled[k] < |table| && Fill(table, filled[k], fill).Filled?
  }

  /** The filler succeeded on every row from `lo` up to, not including, `hi`: the crash at `hi` is the first one. */
  predicate FirstCrashAt(table: seq<OutRow>, lo: nat, hi: nat, fill: Filler) {
    hi <= |table| && forall i :: lo <= i < hi ==> Fill(table, i, fill).Filled?
  }

  /** Every row from `lo` up to, not including, `hi` is among `filled`. */
  predicate FilledBetween(filled: seq<nat>, lo: nat, hi: nat) {
    forall i :: lo <= i < hi ==> i in filled
  }

  /**
   * A loop that resumes at the checkpoint and does not crash fills every
   * row from the checkpoint on and leaves the rows before it as they were.
   */
  lemma ResumeSucceeds(table: seq<OutRow>, files: Files, fill: Filler)
    requires forall i :: 0 <= i < |table| ==> HasProposal(table[i])
    ensures var p := Resume(table, files, fill);
            p.crashedAt.None? ==> ResumedFrom(table, p.table, ReadCheckpoint(files.checkpoint), fill)
  {
    var start := ReadCheckpoint(files.checkpoint);
    var todo := Range(start, |table|);
    var p := Resume(table, files, fill);
    if p.crashedAt.None? {
      ProcessVisits(Complete, table, files, todo, fill);
      ProcessCompletes(Complete, table, files, todo, fill);
      ProcessKeeps(Complete, table, files, todo, fill);
      ProcessFills(Complete, table, files, todo, fill);
      forall i | 0 <= i < |table|
        ensures if start <= i then Fill(table, i, fill) == Filled(p.table[i]) else p.table[i] == table[i]
      {
        if start <= i {
          assert i in todo;
        } else {
          assert i !in todo;
        }
      }
    }
  }

  /**
   * A loop that resumes at the checkpoint and crashes stops at a row from
   * the checkpoint on that the filler crashes on, after filling every row
   * from the checkpoint up to it.
   */
  lemma ResumeCrashes(table: seq<OutRow>, files: Files, fill: Filler)
    requires forall i :: 0 <= i < |table| ==> HasProposal(table[i])
    ensures var p := Resume(table, files, fill);
            p.crashedAt.Some? ==>
              && ReadCheckpoint(files.checkpoint) <= p.crashedAt.value < |table|
              && Fill(table, p.crashedAt.value, fill).Crashed?
              && FilledBetween(p.filled, Clamp(ReadCheckpoint(files.checkpoint)), p.crashedAt.value)
              && Increasing(p.filled) && InRange(p.filled, p.crashedAt.value)
              && FilledWell(table, p.filled, fill)
              && FirstCrashAt(table, Clamp(ReadCheckpoint(files.checkpoint)), p.crashedAt.value, fill)
  {
    var start := ReadCheckpoint(files.checkpoint);
    var todo := Range(start, |table|);
    var p := Resume(table, files, fill);
    if p.crashedAt.Some? {
      ProcessCrash(Complete, table, files, todo, fill);
      ProcessCompletes(Complete, table, files, todo, fill);
      ProcessVisits(Complete, table, files, todo, fill);
      ProcessEligible(Complete, table, files, todo, fill);
      ProcessFills(Complete, table, files, todo, fill);
      var c := p.crashedAt.value;
      forall j | Clamp(start) <= j < c
        ensures j in p.filled
      {
        assert j in todo && HasProposal(table[j]);
      }
      forall j | Clamp(start) <= j < c
        ensures Fill(table, j, fill).Filled?
      {
        assert j in p.filled;
      }
    }
  }

  /**
   * After a crash, the checkpoint points at the row that crashed, so that
   * the next run resumes there.
   */
  lemma ResumeAfterCrash(table: seq<OutRow>, files: Files, fill: Filler)
    requires forall i :: 0 <= i < |table| ==> HasProposal(table[i])
    ensures var p := Resume(table, files, fill);
            p.crashedAt.Some? ==> Clamp(ReadCheckpoint(p.files.checkpoint)) == p.crashedAt.value
  {
    var start := ReadCheckpoint(files.checkpoint);
    var todo := Range(start, |table|);
    var p := Resume(table, files, fill);
    if p.crashedAt.Some? {
      ResumeCrashes(table, files, fill);
      ProcessVisits(Complete, table, files, todo, fill);
      ProcessCheckpoint(Complete, table, files, todo, fill);
      CrashResumePoint(start, p.filled, p.crashedAt.value);
      if |p.filled| > 0 {
        CheckpointRoundTrip(Last(p.filled) + 1);
      }
    }
  }

  /**
   * The full run over a prepared table whose rows all carry an id: resume
   * at the checkpoint and fill every row from there on; on success save the
   * table and remove the checkpoint.
   */
  function CompleteRun(table: seq<OutRow>, files: Files, fill: Filler): (r: Outcome)
    requires forall i :: 0 <= i < |table| ==> HasProposal(table[i])
    ensures r.table == table
    ensures |table| == 0 ==> r.files == files && r.crashedAt.None?
    ensures |table| > 0 && r.crashedAt.None? ==>
              && r.files.checkpoint.None?
              && r.files.output.Some? && ResumedFrom(table, r.files.output.value, ReadCheckpoint(files.checkpoint), fill)
    ensures r.crashedAt.Some? ==>
              && ReadCheckpoint(files.checkpoint) <= r.crashedAt.value < |table|
              && Fill(table, r.crashedAt.value, fill).Crashed?
              && FilledBetween(r.filled, Clamp(ReadCheckpoint(files.checkpoint)), r.crashedAt.value)
              && Increasing(r.filled) && InRange(r.filled, r.crashedAt.value)
              && FilledWell(table, r.filled, fill)
              && FirstCrashAt(table, Clamp(ReadCheckpoint(files.checkpoint)), r.crashedAt.value, fill)
              && Clamp(ReadCheckpoint(r.files.checkpoint)) == r.crashedAt.value
              && (NoTenthRow(r.filled) ==> r.files.output == files.output)
  {
    if |table| == 0 then Outcome(files, table, [], None)
    else
      var pass := Resume(table, files, fill);
      if pass.crashedAt.Some? then
        ResumeCrashes(table, files, fill);
        ResumeAfterCrash(table, files, fill);
        ProcessSkipsSave(table, files, Range(ReadCheckpoint(files.checkpoint), |table|), fill);
        Outcome(pass.files, table, pass.filled, pass.crashedAt)
      else
        ResumeSucceeds(table, files, fill);
        Outcome(pass.files.(output := Some(pass.table), checkpoint := None), table, pass.filled, None)
  }

  /**
   * `rodar_processamento_completo`: read and filter the roster, then run
   * the full pass over it with the browser's row filler.
   */
  function RunComplete(input: Option<Sheet>, filter: string, files: Files, browser: Browser): (r: Outcome)
    ensures ReadRoster(input).None? ==> r == Outcome(files, [], [], None)
    ensures ReadRoster(input).Some? ==> r.table == FilterByInstrument(ReadRoster(input).value, filter)
    ensures |r.table| == 0 ==> r.files == files && r.crashedAt.None?
    ensures |r.table| > 0 && r.crashedAt.None? ==>
              && r.files.checkpoint.None?
              && r.files.output.Some?
              && ResumedFrom(r.table, r.files.output.value, ReadCheckpoint(files.checkpoint), RowFiller(browser))
    ensures r.crashedAt.Some? ==>
              && ReadCheckpoint(files.checkpoint) <= r.crashedAt.value < |r.table|
              && Fill(r.table, r.crashedAt.value, RowFiller(browser)).Crashed?
              && FilledBetween(r.filled, Clamp(ReadCheckpoint(files.checkpoint)), r.crashedAt.value)
              && Increasing(r.filled) && InRange(r.filled, r.crashedAt.value)
              && FilledWell(r.table, r.filled, RowFiller(browser))
              && FirstCrashAt(r.table, Clamp(ReadCheckpoint(files.checkpoint)), r.crashedAt.value, RowFiller(browser))
              && Clamp(ReadCheckpoint(r.files.checkpoint)) == r.crashedAt.value
              && (NoTenthRow(r.filled) ==> r.files.output == files.output)
  {
    match ReadRoster(input)
    case None => Outcome(files, [], [], None)
    case Some(roster) =>
      FilteredRosterHasIds(input, filter);
      CompleteRun(FilterByInstrument(roster, filter), files, RowFiller(browser))
  }

  /**
   * When the rows filled before a crash are the rows from `start` up to it
   * and nothing else, the last one is the row before the crash, or there is
   * none and the crash hit the first row visited.
   */
  lemma CrashResumePoint(start: int, filled: seq<nat>, crash: nat)
    requires Increasing(filled) && InRange(filled, crash)
    requires Clamp(start) <= crash
    requires forall k :: 0 <= k < |filled| ==> Clamp(start) <= filled[k]
    requires FilledBetween(filled, Clamp(start), crash)
    ensures |filled| == 0 ==> Clamp(start) == crash
    ensures |filled| > 0 ==> Last(filled) + 1 == crash
  {
    if |filled| > 0 {
      assert Clamp(start) <= filled[0] < crash;
      assert crash - 1 in filled;
      var k :| 0 <= k < |filled| && filled[k] == crash - 1;
      assert filled[k] <= Last(filled) < crash;
    } else {
      assert Clamp(start) !in filled;
    }
  }

  // ---------------------------------------------------------------------------
  // The failure-only run

  /** Every row before `c` whose action is blank and that has a proposal id is among `filled`. */
  predicate RetriedBefore(table: seq<OutRow>, filled: seq<nat>, c: nat) {
    forall i :: 0 <= i < c && i < |table| && IsBlank(table[i].action) && HasProposal(table[i]) ==> i in filled
  }

  /**
   * The failure run over a filtered table: fill each row whose action is
   * blank, saving the table after each row; the checkpoint is never touched.
   */
  function RetryRun(table: seq<OutRow>, files: Files, fill: Filler): (r: Outcome)
    ensures r.table == table
    ensures r.files.checkpoint == files.checkpoint
    ensures |r.filled| == 0 ==> r.files == files
    ensures forall k :: 0 <= k < |r.filled| ==>
              r.filled[k] < |table| && IsBlank(table[r.filled[k]].action) && HasProposal(table[r.filled[k]])
    ensures Increasing(r.filled)
    ensures r.crashedAt.Some? ==>
              && r.crashedAt.value < |table| && IsBlank(table[r.crashedAt.value].action)
              && HasProposal(table[r.crashedAt.value])
              && Fill(table, r.crashedAt.value, fill).Crashed?
              && InRange(r.filled, r.crashedAt.value)
              && RetriedBefore(table, r.filled, r.crashedAt.value)
    ensures r.crashedAt.None? ==>
              forall i :: 0 <= i < |table| && IsBlank(table[i].action) && HasProposal(table[i]) ==> i in r.filled
    ensures |r.filled| > 0 ==>
              && r.files.output.Some? && |r.files.output.value| == |table|
              && forall i :: 0 <= i < |table| ==>
                   if i in r.filled then Fill(table, i, fill) == Filled(r.files.output.value[i])
                   else r.files.output.value[i] == table[i]
  {
    var todo := BlankActions(table);
    if |todo| == 0 then Outcome(files, table, [], None)
    else
      var pass := Process(FailuresOnly, table, files, todo, fill);
      ProcessVisits(FailuresOnly, table, files, todo, fill);
      ProcessEligible(FailuresOnly, table, files, todo, fill);
      ProcessCrash(FailuresOnly, table, files, todo, fill);
      ProcessCompletes(FailuresOnly, table, files, todo, fill);
      ProcessKeeps(FailuresOnly, table, files, todo, fill);
      ProcessFills(FailuresOnly, table, files, todo, fill);
      ProcessCheckpoint(FailuresOnly, table, files, todo, fill);
      ProcessSaves(FailuresOnly, table, files, todo, fill);
      assert pass.crashedAt.Some? ==> RetriedBefore(table, pass.filled, pass.crashedAt.value);
      Outcome(pass.files, table, pass.filled, pass.crashedAt)
  }

  /**
   * `reprocessar_falhas`: filter the saved table, then retry each row whose
   * action is blank with the browser's row filler, saving the filtered
   * table after each row.
   */
  function RetryFailures(files: Files, filter: string, browser: Browser): (r: Outcome)
    ensures files.output.None? ==> r == Outcome(files, [], [], None)
    ensures files.output.Some? ==> r.table == FilterByInstrument(files.output.value, filter)
    ensures r.files.checkpoint == files.checkpoint
    ensures |r.filled| == 0 ==> r.files == files
    ensures forall k :: 0 <= k < |r.filled| ==>
              r.filled[k] < |r.table| && IsBlank(r.table[r.filled[k]].action) && HasProposal(r.table[r.filled[k]])
    ensures Increasing(r.filled)
    ensures r.crashedAt.Some? ==>
              && r.crashedAt.value < |r.table| && IsBlank(r.table[r.crashedAt.value].action)
              && HasProposal(r.table[r.crashedAt.value])
              && Fill(r.table, r.crashedAt.value, RowFiller(browser)).Crashed?
              && InRange(r.filled, r.crashedAt.value)
              && RetriedBefore(r.table, r.filled, r.crashedAt.value)
    ensures r.crashedAt.None? ==>
              forall i :: 0 <= i < |r.table| && IsBlank(r.table[i].action) && HasProposal(r.table[i]) ==> i in r.filled
    ensures |r.filled| > 0 ==>
              && r.files.output.Some? && |r.files.output.value| == |r.table|
              && forall i :: 0 <= i < |r.table| ==>
                   if i in r.filled then Fill(r.table, i, RowFiller(browser)) == Filled(r.files.output.value[i])
                   else r.files.output.value[i] == r.table[i]
  {
    match files.output
    case None => Outcome(files, [], [], None)
    case Some(saved) => RetryRun(FilterByInstrument(saved, filter), files, RowFiller(browser))
  }

  /** Every row of a table the filter produced still passes it after the row filler. */
  lemma FilledTablePassesFilter(table: seq<OutRow>, after: seq<OutRow>, filter: string)
    requires |after| == |table|
    requires forall i :: 0 <= i < |table| ==> after[i].instrument == table[i].instrument
    requires !SelectsAll(filter) ==> forall i :: 0 <= i < |table| ==> MatchesInstrument(table[i], filter)
    ensures FilterByInstrument(after, filter) == after
  {
    if !SelectsAll(filter) {
      FilterKeepsMatchingTable(after, filter);
    }
  }

  /** A row filler that keeps the roster columns and leaves a non-blank action on every row it fills. */
  ghost predicate KeepsRoster(fill: Filler) {
    forall row :: fill(row).Filled? ==> KeepsRosterColumns(row, fill(row).row) && !IsBlank(fill(row).row.action)
  }

  /** The browser-driven row filler is one. */
  lemma RowFillerKeepsRoster(browser: Browser)
    ensures KeepsRoster(RowFiller(browser))
  {
    forall row: OutRow
      ensures RowFiller(browser)(row).Filled? ==>
                KeepsRosterColumns(row, RowFiller(browser)(row).row) && !IsBlank(RowFiller(browser)(row).row.action)
    {
      var f := FillRow(row, Strip(row.proposal), browser);
    }
  }

  /**
   * After a failure run that did not crash, every row still blank lacks an
   * id, and the instrument column is as it was.
   */
  lemma RetryRunSettles(table: seq<OutRow>, files: Files, fill: Filler)
    requires KeepsRoster(fill)
    requires RetryRun(table, files, fill).crashedAt.None?
    ensures var r := RetryRun(table, files, fill);
            |r.filled| == 0 ==> forall i :: 0 <= i < |table| && IsBlank(table[i].action) ==> !HasProposal(table[i])
    ensures var r := RetryRun(table, files, fill);
            |r.filled| > 0 ==>
              forall i :: 0 <= i < |table| ==>
                && r.files.output.value[i].instrument == table[i].instrument
                && (IsBlank(r.files.output.value[i].action) ==> !HasProposal(r.files.output.value[i]))
  {
    var r := RetryRun(table, files, fill);
    if |r.filled| > 0 {
      var out := r.files.output.value;
      forall i | 0 <= i < |table|
        ensures out[i].instrument == table[i].instrument
        ensures IsBlank(out[i].action) ==> !HasProposal(out[i])
      {
        if i in r.filled {
          assert fill(table[i]) == Filled(out[i]);
        }
      }
    }
  }

  /**
   * Retrying failures twice with the same filter: once the first run ends
   * without a crash, the second fills nothing and writes nothing, whatever
   * the browser shows, because every row still blank has no proposal id.
   */
  lemma RetryIsIdempotent(files: Files, filter: string, b1: Browser, b2: Browser)
    requires RetryFailures(files, filter, b1).crashedAt.None?
    ensures RetryFailures(RetryFailures(files, filter, b1).files, filter, b2).filled == []
    ensures RetryFailures(RetryFailures(files, filter, b1).files, filter, b2).files
            == RetryFailures(files, filter, b1).files
  {
    if files.output.Some? {
      var table := FilterByInstrument(files.output.value, filter);
      var first := RetryRun(table, files, RowFiller(b1));
      RowFillerKeepsRoster(b1);
      RetryRunSettles(table, files, RowFiller(b1));
      if |first.filled| > 0 {
        var out := first.files.output.value;
        KeepMatchingSpec(files.output.value, filter);
        FilledTablePassesFilter(table, out, filter);
        NothingLeftToRetry(first.files, filter, b2);
      } else {
        FilterIdempotent(files.output.value, filter);
        NothingLeftToRetry(files, filter, b2);
      }
    }
  }

  /** A saved table whose filtered blank-action rows all lack an id gives the failure run nothing to do. */
  lemma NothingLeftToRetry(files: Files, filter: string, browser: Browser)
    requires files.output.Some?
    requires var table := FilterByInstrument(files.output.value, filter);
             forall i :: 0 <= i < |table| && IsBlank(table[i].action) ==> !HasProposal(table[i])
    ensures RetryFailures(files, filter, browser).filled == []
    ensures RetryFailures(files, filter, browser).files == files
  {
    var table := FilterByInstrument(files.output.value, filter);
    ProcessSkipsAll(FailuresOnly, table, files, BlankActions(table), RowFiller(browser));
  }
}
