/** `_clean_env_value`, and inputs for which the laws of the writers fail. */
module EnvValidator {
  import opened Text
  import opened EnvFile
  import opened EnvLaws
  import opened MachineId

  predicate IsControl(c: char) {
    c as int < 32 || c as int == 127
  }

  /** None stands for the ValueError. */
  function CleanEnvValue(value: string): Option<string> {
    var v := Strip(value);
    if exists i :: 0 <= i < |v| && IsControl(v[i]) then None else Some(v)
  }

  /** A value is refused exactly for an ASCII control character behind the whitespace around it,
      and otherwise accepted without that whitespace. */
  lemma AcceptsExactly(value: string, v: string)
    ensures CleanEnvValue(value) == Some(v) <==>
      v == Strip(value) && forall i :: 0 <= i < |v| ==> ' ' <= v[i] && v[i] != '\U{7F}'
  {
    hide Strip;
  }

  /** Line breaks that are not control characters by the validator's test. */
  predicate IsSoftBreak(c: char) {
    c as int == 0x85 || c as int == 0x2028 || c as int == 0x2029
  }

  /** An accepted value is clean, and so survives the write-read round trip, exactly when it
      holds none of the three line breaks outside the ASCII control range. */
  lemma AcceptedIsClean(value: string)
    requires CleanEnvValue(value).Some?
    ensures CleanValue(CleanEnvValue(value).value)
      <==> forall i :: 0 <= i < |CleanEnvValue(value).value| ==> !IsSoftBreak(CleanEnvValue(value).value[i])
  {
    var v := CleanEnvValue(value).value;
    var i, j := StripCuts(value);
    assert v == Strip(value) && Stripped(v);
    hide Strip, Stripped, IsSpace;
    assert forall i :: 0 <= i < |v| ==> !IsControl(v[i]);
    assert forall i :: 0 <= i < |v| ==> (IsBreak(v[i]) <==> IsSoftBreak(v[i]));
  }

  const LINE_SEPARATED := "a\U{2028}b"

  lemma LineSeparatedAccepted()
    ensures CleanEnvValue(LINE_SEPARATED) == Some(LINE_SEPARATED) && !CleanValue(LINE_SEPARATED)
  {
    StripFixed(LINE_SEPARATED);
    assert IsBreak(LINE_SEPARATED[1]);
  }

  /** A value the validator accepts that never reads back: it holds a line separator. */
  lemma AcceptedNotClean(text: string, k: string)
    ensures CleanEnvValue(LINE_SEPARATED) == Some(LINE_SEPARATED)
    ensures ReadEnv(Merged(text, map[k := LINE_SEPARATED], [k], PROVISIONER_HEADER))
         != ReadEnv(text)[k := LINE_SEPARATED]
  {
    hide ReadEnv, Merged, CleanKey, CleanValue, CleanEnvValue, Comment;
    var u := map[k := LINE_SEPARATED];
    LineSeparatedAccepted();
    HeadersAreComments();
    OverlayLaw(text, u, [k], PROVISIONER_HEADER);
    assert k in u && !CleanValue(u[k]);
    assert ReadEnv(text) + u == ReadEnv(text)[k := LINE_SEPARATED];
  }

  lemma HeadersAreComments()
    ensures Comment(PROVISIONER_HEADER) && Comment(CONFIG_PUSH_HEADER)
  {
    ProvisionerHeader();
    ConfigPushHeader();
    hide Comment;
  }

  lemma ProvisionerHeader()
    ensures Comment(PROVISIONER_HEADER)
  {}

  lemma ConfigPushHeader()
    ensures Comment(CONFIG_PUSH_HEADER)
  {}

  const FIRST_LINE := "VASTAI_MACHINE_ID=1"
  const SECOND_LINE := " VASTAI_MACHINE_ID=2"
  const DUPLICATED := Unlines([FIRST_LINE, SECOND_LINE])

  lemma DuplicatedLines()
    ensures SplitLines(DUPLICATED) == [FIRST_LINE, SECOND_LINE]
  {
    assert NoBreaks([FIRST_LINE, SECOND_LINE]);
    hide SplitLines, Unlines;
    SplitUnlines([FIRST_LINE, SECOND_LINE]);
  }

  lemma FirstLineCanonical()
    ensures Canonical(FIRST_LINE)
  {
    assert FIRST_LINE == MACHINE_ID_KEY + "=" + "1";
  }

  lemma SecondLineNotCanonical()
    ensures !Canonical(SECOND_LINE)
  {
    assert SECOND_LINE[0] != (MACHINE_ID_KEY + "=")[0];
  }

  lemma SecondLineParts()
    ensures SECOND_LINE == " " + Assignment(MACHINE_ID_KEY, "2")
  {}

  lemma SecondLineEntry()
    ensures Entry(SECOND_LINE) == Some((MACHINE_ID_KEY, "2"))
  {
    KeyIsClean();
    EntryOfAssignment(MACHINE_ID_KEY, "2");
    StripFixed("2");
    SecondLineParts();
    hide *;
    IndentedEntry(Assignment(MACHINE_ID_KEY, "2"));
  }

  lemma IndentedEntry(line: string)
    ensures Entry(" " + line) == Entry(line)
  {
    assert (" " + line)[1..] == line;
    assert LStrip(" " + line) == LStrip(line);
    hide LStrip, RStrip, IndexOf;
  }

  /** An indented duplicate behind the line the writer replaces keeps its say. */
  lemma IndentedDuplicateWins()
    ensures ReadEnv(Persisted(DUPLICATED, "3")) != ReadEnv(DUPLICATED)[MACHINE_ID_KEY := "3"]
  {
    var lines := [FIRST_LINE, SECOND_LINE];
    DuplicatedLines();
    FirstLineCanonical();
    SecondLineNotCanonical();
    SecondLineEntry();
    hide Entry, SplitLines, Unlines, Canonical, Fill, CleanKey, CleanValue;
    assert LastAt(lines, MACHINE_ID_KEY, 1);
    CanonicalLast(lines, 1);
    FillLast(Entries(lines), 1);
    assert Canonical(lines[0]) && AnyCanonical(lines);
    assert ReadEnv(DUPLICATED) == Fill(Entries(lines));
    hide LastAt, LastIsCanonical, AnyCanonical, Persisted;
    PersistLaw(DUPLICATED, "3");
  }
}
