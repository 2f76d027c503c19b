/** What replay keeps: rows accumulate, a terminal event is final, outputs stay apart, and only
    whole canonical lines are ever accepted. */
module AttemptReplay {
  import opened Basics
  import opened Json
  import opened AttemptRows
  import opened AttemptIndex

  /** Later rows keep every admission and every terminal row as it is. */
  predicate Extends(a: Entries, b: Entries) {
    forall id :: id in a ==>
      && id in b && b[id].begin == a[id].begin
      && (a[id].terminal.Some? ==> b[id].terminal == a[id].terminal)
  }

  predicate SoundEntry(id: string, e: Entry) {
    && e.begin.BeginRow? && e.begin.id == id && Name(id)
    && Relative(e.begin.output).Some? && OutputParts(e.begin)[0] != "attempts"
    && (e.terminal.Some? ==> e.terminal.value.TerminalRow? && e.terminal.value.id == id)
  }

  predicate ApartEntries(a: Entry, b: Entry) {
    a.begin.BeginRow? && b.begin.BeginRow? ==> Apart(OutputParts(a.begin), OutputParts(b.begin))
  }

  /** Entries of an accepted journal: each under its own id, outputs mutually apart. */
  predicate Sound(entries: Entries) {
    && (forall id :: id in entries ==> SoundEntry(id, entries[id]))
    && (forall id, id' :: id in entries && id' in entries && id != id' ==> ApartEntries(entries[id], entries[id']))
  }

  lemma AdmissionKeeps(entries: Entries, row: Row)
    requires Sound(entries)
    requires row.BeginRow? && row.id !in entries && SoundEntry(row.id, Entry(row, None))
    requires forall id :: id in entries ==> ApartEntries(Entry(row, None), entries[id])
    ensures var next := entries[row.id := Entry(row, None)];
            Sound(next) && Extends(entries, next)
  {
    var next := entries[row.id := Entry(row, None)];
    forall id, id' | id in next && id' in next && id != id'
      ensures ApartEntries(next[id], next[id'])
    {
      if id' == row.id {
        assert ApartEntries(next[id'], next[id]);
      }
    }
  }

  lemma TerminationKeeps(entries: Entries, row: Row)
    requires Sound(entries)
    requires row.TerminalRow? && row.id in entries && entries[row.id].terminal.None?
    ensures var next := entries[row.id := Entry(entries[row.id].begin, Some(row))];
            Sound(next) && Extends(entries, next)
  {
  }

  lemma NextEntriesKeeps(env: Env, disk: Disk, st: Progress, row: Row)
    requires Sound(st.entries)
    requires NextEntries(env, disk, st, row).Some?
    ensures var next := NextEntries(env, disk, st, row).value;
            Sound(next) && Extends(st.entries, next)
  {
    match row
    case IdentityRow(_, _, _) =>
    case BeginRow(_, _, _, _, _, _) =>
      forall id | id in st.entries
        ensures ApartEntries(Entry(row, None), st.entries[id])
      {
        assert SoundEntry(id, st.entries[id]);
      }
      AdmissionKeeps(st.entries, row);
    case TerminalRow(_, _, _, _) => TerminationKeeps(st.entries, row);
  }

  lemma ApplyKeeps(env: Env, disk: Disk, st: Progress, line: Bytes)
    requires Sound(st.entries)
    requires Apply(env, disk, st, line).Some?
    ensures var next := Apply(env, disk, st, line).value;
            Sound(next.entries) && Extends(st.entries, next.entries)
  {
    NextEntriesKeeps(env, disk, st, DecodeRow(line).value);
  }

  lemma {:induction false} ReplayKeeps(env: Env, disk: Disk, data: Bytes, st: Progress)
    requires Sound(st.entries)
    requires ReplayData(env, disk, data, st).Some?
    ensures var end := ReplayData(env, disk, data, st).value;
            Sound(end.entries) && Extends(st.entries, end.entries)
    decreases |data|
  {
    if data != [] {
      ApplyKeeps(env, disk, st, FirstLine(data));
      ReplayKeeps(env, disk, AfterLine(data), Apply(env, disk, st, FirstLine(data)).value);
    }
  }

  /** In every accepted journal outputs are pairwise non-nested and outside `attempts/`, and each
      entry sits under its own id. */
  lemma OpenSound(env: Env, disk: Disk)
    requires Open(env, disk).Some?
    ensures Sound(Open(env, disk).value.entries)
  {
    ReplayKeeps(env, disk, IndexData(disk), START);
  }

  // ------------------------------------------------------------ whole lines

  predicate OneLine(line: Bytes) {
    Terminated(line) && |line| <= MAX_ROW_BYTES
  }

  lemma AppliedLine(env: Env, disk: Disk, st: Progress, line: Bytes)
    requires Apply(env, disk, st, line).Some?
    ensures OneLine(line)
  {
    DecodedLine(line);
  }

  lemma LineLengthAppend(data: Bytes, tail: Bytes, from: nat)
    requires from <= |data| && from <= MAX_ROW_BYTES + 1
    requires from < LineLength(data, from) && data[LineLength(data, from) - 1] == '\n'
    ensures LineLength(data + tail, from) == LineLength(data, from)
    decreases |data| - from
  {
    assert (data + tail)[from] == data[from];
    if data[from] != '\n' {
      LineLengthAppend(data, tail, from + 1);
    }
  }

  lemma FirstLineAppend(data: Bytes, tail: Bytes)
    requires data != [] && FirstLine(data)[|FirstLine(data)| - 1] == '\n'
    ensures FirstLine(data + tail) == FirstLine(data)
    ensures AfterLine(data + tail) == AfterLine(data) + tail
  {
    LineLengthAppend(data, tail, 0);
  }

  lemma LineLengthWhole(line: Bytes, from: nat)
    requires OneLine(line) && from < |line|
    ensures LineLength(line, from) == |line|
    decreases |line| - from
  {
    if from < |line| - 1 {
      LineLengthWhole(line, from + 1);
    }
  }

  /** Appending one row to an accepted file replays that row after the others. */
  lemma {:induction false} ReplayAppend(env: Env, disk: Disk, data: Bytes, line: Bytes, st: Progress)
    requires ReplayData(env, disk, data, st).Some?
    requires OneLine(line)
    ensures ReplayData(env, disk, data + line, st) == Apply(env, disk, ReplayData(env, disk, data, st).value, line)
    decreases |data|
  {
    if data == [] {
      assert data + line == line;
      LineLengthWhole(line, 0);
      assert FirstLine(line) == line && AfterLine(line) == [];
    } else {
      AppliedLine(env, disk, st, FirstLine(data));
      FirstLineAppend(data, line);
      ReplayAppend(env, disk, AfterLine(data), line, Apply(env, disk, st, FirstLine(data)).value);
    }
  }

  lemma TornStep(data: Bytes, tail: Bytes)
    requires tail != [] && '\n' !in tail
    requires OneLine(FirstLine(data + tail))
    ensures data != [] && |FirstLine(data + tail)| <= |data|
    ensures AfterLine(data + tail) == data[|FirstLine(data + tail)|..] + tail
  {
    var all := data + tail;
    var n := |FirstLine(all)|;
    assert FirstLine(all)[n - 1] == all[n - 1];
    assert all[n..] == data[n..] + tail;
  }

  /** A file whose last bytes lack their newline is never accepted. */
  lemma {:induction false} TornRejected(env: Env, disk: Disk, data: Bytes, tail: Bytes, st: Progress)
    requires tail != [] && '\n' !in tail
    ensures ReplayData(env, disk, data + tail, st).None?
    decreases |data|
  {
    var line := FirstLine(data + tail);
    if Apply(env, disk, st, line).Some? {
      AppliedLine(env, disk, st, line);
      TornStep(data, tail);
      TornRejected(env, disk, data[|line|..], tail, Apply(env, disk, st, line).value);
    }
  }
}
