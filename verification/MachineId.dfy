/** `_persist_machine_id`: the third writer of agent.env. It recognises a line to replace by
    its raw prefix, so it can miss an assignment the reader accepts. */
module MachineId {
  import opened Text
  import opened EnvFile
  import opened EnvLaws

  /** The form the writer recognises: unindented, no space before `=`. */
  predicate Canonical(line: string) {
    MACHINE_ID_KEY + "=" <= line
  }

  function PersistLine(line: string, id: string): string {
    if Canonical(line) then Assignment(MACHINE_ID_KEY, id) else line
  }

  function PersistLines(lines: seq<string>, id: string): (r: seq<string>)
    ensures |r| == |lines|
    ensures forall i :: 0 <= i < |r| ==> r[i] == PersistLine(lines[i], id)
  {
    seq(|lines|, i requires 0 <= i < |lines| => PersistLine(lines[i], id))
  }

  predicate AnyCanonical(lines: seq<string>) {
    exists i :: 0 <= i < |lines| && Canonical(lines[i])
  }

  function Persisted(text: string, id: string): string {
    var lines := SplitLines(text);
    JoinLines(PersistLines(lines, id)
      + if AnyCanonical(lines) then [] else [Assignment(MACHINE_ID_KEY, id)])
  }

  method PersistMachineId(file: Option<string>, id: string) returns (out: Option<string>)
    ensures out == match file case None => None case Some(text) => Some(Persisted(text, id))
  {
    if file.None? {
      return None;
    }
    var lines := SplitLines(file.value);
    var updated := false;
    var newLines: seq<string> := [];
    for i := 0 to |lines|
      invariant newLines == PersistLines(lines[..i], id)
      invariant updated == AnyCanonical(lines[..i])
    {
      assert lines[..i + 1] == lines[..i] + [lines[i]];
      if MACHINE_ID_KEY + "=" <= lines[i] {
        assert Canonical(lines[..i + 1][i]);
        newLines := newLines + [Assignment(MACHINE_ID_KEY, id)];
        updated := true;
      } else {
        newLines := newLines + [lines[i]];
      }
    }
    assert lines[..|lines|] == lines;
    if !updated {
      newLines := newLines + [Assignment(MACHINE_ID_KEY, id)];
    } else {
      assert newLines + [] == newLines;
    }
    out := Some(JoinLines(newLines));
  }

  ghost predicate Assigns(line: string, k: string) {
    Entry(line).Some? && Entry(line).value.0 == k
  }

  /** The last line that assigns the machine id, the one the reader believes, is canonical. */
  ghost predicate LastIsCanonical(lines: seq<string>) {
    exists i :: 0 <= i < |lines| && Canonical(lines[i])
      && forall j :: i < j < |lines| ==> !Assigns(lines[j], MACHINE_ID_KEY)
  }

  lemma KeyIsClean()
    ensures CleanKey(MACHINE_ID_KEY)
  {}

  lemma CanonicalAssigns(line: string)
    requires Canonical(line)
    ensures Assigns(line, MACHINE_ID_KEY)
  {
    var p := MACHINE_ID_KEY + "=";
    KeyIsClean();
    hide Entry, CleanKey;
    assert line == p + line[|p|..];
    EntryOfAssignment(MACHINE_ID_KEY, line[|p|..]);
  }

  /** Entries that agree except in the values given to `k`. */
  ghost predicate AgreeOff(es: seq<Option<(string, string)>>, fs: seq<Option<(string, string)>>, k: string) {
    |es| == |fs| && forall i :: 0 <= i < |es| ==>
      es[i] == fs[i] || (es[i].Some? && fs[i].Some? && es[i].value.0 == fs[i].value.0 == k)
  }

  lemma {:induction false} FillAgrees(es: seq<Option<(string, string)>>, fs: seq<Option<(string, string)>>, k: string)
    requires AgreeOff(es, fs, k)
    ensures Fill(es).Keys == Fill(fs).Keys
    ensures forall x :: x in Fill(es) && x != k ==> Fill(es)[x] == Fill(fs)[x]
  {
    if es != [] {
      FillAgrees(es[..|es| - 1], fs[..|fs| - 1], k);
    }
  }

  /** The last assignment of a key wins. */
  lemma {:induction false} FillLast(es: seq<Option<(string, string)>>, i: nat)
    requires i < |es| && es[i].Some?
    requires forall j :: i < j < |es| ==> es[j].None? || es[j].value.0 != es[i].value.0
    ensures es[i].value.0 in Fill(es) && Fill(es)[es[i].value.0] == es[i].value.1
  {
    if i < |es| - 1 {
      FillLast(es[..|es| - 1], i);
    }
  }

  ghost predicate LastAt(lines: seq<string>, k: string, i: nat) {
    i < |lines| && Assigns(lines[i], k) && forall j :: i < j < |lines| ==> !Assigns(lines[j], k)
  }

  lemma {:induction false} LastAssignment(lines: seq<string>, k: string, c: nat) returns (i: nat)
    requires c < |lines| && Assigns(lines[c], k)
    ensures LastAt(lines, k, i)
    decreases |lines| - c
  {
    hide Assigns;
    if j :| c < j < |lines| && Assigns(lines[j], k) {
      i := LastAssignment(lines, k, j);
    } else {
      i := c;
    }
  }

  lemma PersistedEntries(lines: seq<string>, id: string)
    requires CleanValue(id)
    ensures Entry(Assignment(MACHINE_ID_KEY, id)) == Some((MACHINE_ID_KEY, id))
    ensures AgreeOff(Entries(lines), Entries(PersistLines(lines, id)), MACHINE_ID_KEY)
    ensures NoBreak(Assignment(MACHINE_ID_KEY, id))
  {
    KeyIsClean();
    EntryOfAssignment(MACHINE_ID_KEY, id);
    StripFixed(id);
    AssignmentNoBreak(MACHINE_ID_KEY, id);
    hide Entry, Canonical, Assignment, NoBreak, CleanKey;
    forall i | 0 <= i < |lines| && Canonical(lines[i]) ensures Assigns(lines[i], MACHINE_ID_KEY) {
      CanonicalAssigns(lines[i]);
    }
  }

  /** With a clean id: what the reader makes of the persisted lines. */
  lemma PersistedReads(text: string, id: string)
    requires CleanValue(id)
    ensures ReadEnv(Persisted(text, id)) ==
      if AnyCanonical(SplitLines(text)) then ReadLines(PersistLines(SplitLines(text), id))
      else ReadLines(SplitLines(text))[MACHINE_ID_KEY := id]
  {
    var lines := SplitLines(text);
    SplitNoBreaks(text);
    PersistedEntries(lines, id);
    var a := Assignment(MACHINE_ID_KEY, id);
    hide Entry, Assignment, SplitLines, Canonical, CleanValue, Fill, ReadLines, JoinLines;
    ReadJoinedWith(PersistLines(lines, id), a);
    if !AnyCanonical(lines) {
      assert PersistLines(lines, id) == lines;
      ReadConcat(lines, [a]);
      ReadOne(a);
      OneMoreKey(ReadLines(lines), MACHINE_ID_KEY, id);
    }
  }

  lemma OneMoreKey(m: map<string, string>, k: string, v: string)
    ensures m + map[k := v] == m[k := v]
  {}

  lemma ReadJoinedWith(lines: seq<string>, a: string)
    requires NoBreaks(lines) && NoBreak(a)
    ensures ReadEnv(JoinLines(lines + [])) == ReadLines(lines)
    ensures ReadEnv(JoinLines(lines + [a])) == ReadLines(lines + [a])
  {
    hide JoinLines, ReadLines, ReadEnv, NoBreak;
    assert lines + [] == lines;
    ReadJoined(lines);
    ReadJoined(lines + [a]);
  }

  lemma ReplacedLast(lines: seq<string>, id: string, i: nat)
    requires CleanValue(id) && LastAt(lines, MACHINE_ID_KEY, i)
    ensures MACHINE_ID_KEY in ReadLines(lines) && MACHINE_ID_KEY in ReadLines(PersistLines(lines, id))
    ensures ReadLines(PersistLines(lines, id))[MACHINE_ID_KEY]
         == if Canonical(lines[i]) then id else ReadLines(lines)[MACHINE_ID_KEY]
  {
    var es, fs := Entries(lines), Entries(PersistLines(lines, id));
    PersistedEntries(lines, id);
    hide Entry, Canonical, Assignment, CleanValue, Fill;
    FillLast(es, i);
    assert fs[i] == if Canonical(lines[i]) then Some((MACHINE_ID_KEY, id)) else es[i];
    FillLast(fs, i);
  }

  lemma CanonicalLast(lines: seq<string>, i: nat)
    requires LastAt(lines, MACHINE_ID_KEY, i)
    ensures LastIsCanonical(lines) <==> Canonical(lines[i])
  {
    hide Assigns, Canonical;
    forall x | 0 <= x < |lines| && Canonical(lines[x]) ensures Assigns(lines[x], MACHINE_ID_KEY) {
      CanonicalAssigns(lines[x]);
    }
  }

  /** When the writer finds a line to replace, the outcome turns on the last assignment. */
  lemma ReplacedReads(lines: seq<string>, id: string)
    requires CleanValue(id) && AnyCanonical(lines)
    ensures MACHINE_ID_KEY in ReadLines(lines)
    ensures ReadLines(PersistLines(lines, id)) == ReadLines(lines)[MACHINE_ID_KEY := id]
      <==> LastIsCanonical(lines) || ReadLines(lines)[MACHINE_ID_KEY] == id
  {
    var c :| 0 <= c < |lines| && Canonical(lines[c]);
    CanonicalAssigns(lines[c]);
    var i := LastAssignment(lines, MACHINE_ID_KEY, c);
    PersistedEntries(lines, id);
    FillAgrees(Entries(lines), Entries(PersistLines(lines, id)), MACHINE_ID_KEY);
    ReplacedLast(lines, id, i);
    CanonicalLast(lines, i);
    hide Entry, Fill, LastAt, LastIsCanonical, AgreeOff, Assigns, CleanValue, Canonical;
    OneKeyDiffers(ReadLines(lines), ReadLines(PersistLines(lines, id)), MACHINE_ID_KEY, id);
  }

  lemma OneKeyDiffers(a: map<string, string>, b: map<string, string>, k: string, v: string)
    requires a.Keys == b.Keys && k in a && forall x :: x in a && x != k ==> a[x] == b[x]
    ensures b == a[k := v] <==> b[k] == v
  {}

  /** Persisting the id overlays it on what the file says exactly when the id is clean and
      the line the reader believes is one the writer recognises (or already says so). */
  lemma PersistLaw(text: string, id: string)
    ensures ReadEnv(Persisted(text, id)) == ReadEnv(text)[MACHINE_ID_KEY := id] <==>
      CleanValue(id)
      && (!AnyCanonical(SplitLines(text)) || LastIsCanonical(SplitLines(text))
          || (MACHINE_ID_KEY in ReadEnv(text) && ReadEnv(text)[MACHINE_ID_KEY] == id))
  {
    hide SplitLines, CleanValue, CleanKey, Persisted, LastIsCanonical;
    var lines := SplitLines(text);
    if CleanValue(id) {
      PersistedReads(text, id);
      if AnyCanonical(lines) {
        ReplacedReads(lines, id);
      }
    }
    if ReadEnv(Persisted(text, id)) == ReadEnv(text)[MACHINE_ID_KEY := id] {
      assert ReadEnv(text)[MACHINE_ID_KEY := id] == ReadEnv(text) + map[MACHINE_ID_KEY := id];
      CleanIfOverlay(Persisted(text, id), map[MACHINE_ID_KEY := id], ReadEnv(text));
      assert CleanValue(map[MACHINE_ID_KEY := id][MACHINE_ID_KEY]);
    }
  }
}
