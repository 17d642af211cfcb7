/** The agent.env reader and its three writers: `_read_env` / `_write_env` of the
    provisioner, `_apply_pending_config` of the agent, `_persist_machine_id` of the
    Vast.AI provider. A file is its text after newline translation; a dict of updates
    is a map together with its iteration order. */
module EnvFile {
  import opened Text

  const PROVISIONER_HEADER := "# --- set by HADCD provisioner ---"
  const CONFIG_PUSH_HEADER := "# --- set by HADCD remote config push ---"
  const MACHINE_ID_KEY := "VASTAI_MACHINE_ID"

  function IndexOf(c: char, s: string): (i: nat)
    requires c in s
    ensures i < |s| && s[i] == c && c !in s[..i]
  {
    if s[0] == c then 0 else 1 + IndexOf(c, s[1..])
  }

  /** The key and value a line assigns; None for blank lines, comments and lines without `=`. */
  function Entry(line: string): Option<(string, string)> {
    var t := Strip(line);
    if t == "" || t[0] == '#' || '=' !in t then None else
      var i := IndexOf('=', t);
      Some((Strip(t[..i]), Strip(t[i + 1..])))
  }

  /** A line assigns a value to a key exactly if, stripped, it is no comment and splits at its
      first equals sign into two parts that strip to them. */
  lemma EntryExactly(line: string, k: string, v: string)
    ensures Entry(line) == Some((k, v)) <==> exists a, b ::
      Strip(line) == a + "=" + b && '=' !in a && !("#" <= a) && Strip(a) == k && Strip(b) == v
  {
    hide Strip;
    var t := Strip(line);
    if Entry(line) == Some((k, v)) {
      var i := IndexOf('=', t);
      assert t == t[..i] + "=" + t[i + 1..];
    }
    if a, b :| t == a + "=" + b && '=' !in a && !("#" <= a) && Strip(a) == k && Strip(b) == v {
      SplitsThere(t, a, b);
    }
  }

  lemma SplitsThere(t: string, a: string, b: string)
    requires t == a + "=" + b && '=' !in a
    ensures '=' in t && IndexOf('=', t) == |a| && t[..|a|] == a && t[|a| + 1..] == b
    ensures "#" <= a <==> t[0] == '#'
  {
    assert t[|a|] == '=' && forall j :: 0 <= j < |a| ==> t[j] == a[j];
    hide IndexOf;
    assert forall j :: |a| < j <= |t| ==> t[..j][|a|] == '=';
  }

  ghost predicate CleanKey(k: string) {
    NoBreak(k) && Stripped(k) && '=' !in k && (k == "" || k[0] != '#')
  }

  ghost predicate CleanValue(v: string) {
    NoBreak(v) && Stripped(v)
  }

  ghost predicate AllClean(u: map<string, string>) {
    forall k :: k in u ==> CleanKey(k) && CleanValue(u[k])
  }

  function Entries(lines: seq<string>): (es: seq<Option<(string, string)>>)
    ensures |es| == |lines|
    ensures forall i :: 0 <= i < |es| ==> es[i] == Entry(lines[i])
  {
    seq(|lines|, i requires 0 <= i < |lines| => Entry(lines[i]))
  }

  /** A dict filled entry by entry: later assignments override earlier ones. */
  function Fill(es: seq<Option<(string, string)>>): map<string, string> {
    if es == [] then map[] else
      var m := Fill(es[..|es| - 1]);
      match es[|es| - 1]
      case None => m
      case Some((k, v)) => m[k := v]
  }

  function ReadLines(lines: seq<string>): map<string, string> {
    Fill(Entries(lines))
  }

  function ReadEnv(text: string): map<string, string> {
    ReadLines(SplitLines(text))
  }

  /** `_read_env`: a missing file reads as the empty mapping. */
  method ReadEnvFile(file: Option<string>) returns (result: map<string, string>)
    ensures result == match file case None => map[] case Some(text) => ReadEnv(text)
  {
    result := map[];
    if file.None? {
      return;
    }
    var lines := SplitLines(file.value);
    for i := 0 to |lines|
      invariant result == ReadLines(lines[..i])
    {
      assert Entries(lines[..i + 1])[..i] == Entries(lines[..i]);
      match Entry(lines[i]) {
        case Some((k, v)) => result := result[k := v];
        case None =>
      }
    }
    assert lines[..|lines|] == lines;
  }

  // ---- the merging writers -------------------------------------------------

  function Assignment(k: string, v: string): string {
    k + "=" + v
  }

  function RewriteLine(line: string, u: map<string, string>): string {
    match Entry(line)
    case Some((k, _)) => if k in u then Assignment(k, u[k]) else line
    case None => line
  }

  function RewriteLines(lines: seq<string>, u: map<string, string>): (r: seq<string>)
    ensures |r| == |lines|
    ensures forall i :: 0 <= i < |r| ==> r[i] == RewriteLine(lines[i], u)
  {
    seq(|lines|, i requires 0 <= i < |lines| => RewriteLine(lines[i], u))
  }

  /** Keys of `u` that some line assigns: the set the source calls `updated`. */
  function Updated(lines: seq<string>, u: map<string, string>): set<string> {
    ReadLines(lines).Keys * u.Keys
  }

  /** The keys of `order` outside `except`, in order: the source's `remainder`. */
  function Missing(order: seq<string>, except: set<string>): (r: seq<string>)
    ensures forall k :: k in r <==> k in order && k !in except
  {
    if order == [] then [] else
      (if order[0] in except then [] else [order[0]]) + Missing(order[1..], except)
  }

  function AssignAll(keys: seq<string>, u: map<string, string>): (r: seq<string>)
    requires forall k :: k in keys ==> k in u
    ensures |r| == |keys|
    ensures forall i :: 0 <= i < |r| ==> r[i] == Assignment(keys[i], u[keys[i]])
  {
    seq(|keys|, i requires 0 <= i < |keys| => Assignment(keys[i], u[keys[i]]))
  }

  function Appended(order: seq<string>, u: map<string, string>, except: set<string>, header: string): seq<string>
    requires forall k :: k in order ==> k in u
  {
    var keys := Missing(order, except);
    if keys == [] then [] else ["", header] + AssignAll(keys, u)
  }

  function MergedLines(lines: seq<string>, u: map<string, string>, order: seq<string>, header: string): seq<string>
    requires Enumerates(order, u)
  {
    RewriteLines(lines, u) + Appended(order, u, Updated(lines, u), header)
  }

  function Merged(text: string, u: map<string, string>, order: seq<string>, header: string): string
    requires Enumerates(order, u)
  {
    JoinLines(MergedLines(SplitLines(text), u, order, header))
  }

  /** `order` lists the keys of `u`, each once. */
  ghost predicate Enumerates(order: seq<string>, u: map<string, string>) {
    && (forall k :: k in u <==> k in order)
    && (forall i, j :: 0 <= i < j < |order| ==> order[i] != order[j])
  }

  ghost predicate Comment(header: string) {
    NoBreak(header) && Stripped(header) && header != "" && header[0] == '#'
  }

  lemma MissingSnoc(order: seq<string>, k: string, except: set<string>)
    ensures Missing(order + [k], except) == Missing(order, except) + (if k in except then [] else [k])
  {
    if order == [] {
      assert order + [k] == [k];
    } else {
      assert (order + [k])[1..] == order[1..] + [k];
      MissingSnoc(order[1..], k, except);
    }
  }

  /** The first loop of `_write_env`: assigned keys are overwritten in place. */
  method RewritePass(lines: seq<string>, u: map<string, string>) returns (newLines: seq<string>, updated: set<string>)
    ensures newLines == RewriteLines(lines, u)
    ensures updated == Updated(lines, u)
  {
    hide Strip, IndexOf, Assignment;
    updated, newLines := {}, [];
    for i := 0 to |lines|
      invariant newLines == RewriteLines(lines[..i], u)
      invariant updated == Updated(lines[..i], u)
    {
      assert Entries(lines[..i + 1])[..i] == Entries(lines[..i]);
      match Entry(lines[i]) {
        case Some((key, _)) =>
          if key in u {
            newLines := newLines + [Assignment(key, u[key])];
            updated := updated + {key};
          } else {
            newLines := newLines + [lines[i]];
          }
        case None =>
          newLines := newLines + [lines[i]];
      }
    }
    assert lines[..|lines|] == lines;
  }

  method Remainder(order: seq<string>, updated: set<string>) returns (rest: seq<string>)
    ensures rest == Missing(order, updated)
  {
    rest := [];
    for i := 0 to |order|
      invariant rest == Missing(order[..i], updated)
    {
      assert order[..i + 1] == order[..i] + [order[i]];
      MissingSnoc(order[..i], order[i], updated);
      if order[i] !in updated {
        rest := rest + [order[i]];
      }
    }
    assert order[..|order|] == order;
  }

  method AssignEach(keys: seq<string>, u: map<string, string>) returns (lines: seq<string>)
    requires forall k :: k in keys ==> k in u
    ensures lines == AssignAll(keys, u)
  {
    lines := [];
    for i := 0 to |keys|
      invariant lines == AssignAll(keys[..i], u)
    {
      lines := lines + [Assignment(keys[i], u[keys[i]])];
    }
    assert keys[..|keys|] == keys;
  }

  /** `_write_env` and `_apply_pending_config`: one pass that overwrites assigned keys in
      place, then the keys no line assigned, in dict order, under a header. The two differ
      in the header only. */
  method MergeEnv(text: string, u: map<string, string>, order: seq<string>, header: string) returns (out: string)
    requires Enumerates(order, u)
    ensures out == Merged(text, u, order, header)
  {
    hide Entry, JoinLines, RewriteLine, RewriteLines, Missing, SplitLines;
    var newLines, updated := RewritePass(SplitLines(text), u);
    var remainder := Remainder(order, updated);
    if remainder != [] {
      var added := AssignEach(remainder, u);
      newLines := newLines + ["", header] + added;
    }
    assert newLines == MergedLines(SplitLines(text), u, order, header);
    out := JoinLines(newLines);
  }

  // ---- what a line says ------------------------------------------------------

  lemma AssignmentNoBreak(k: string, v: string)
    requires NoBreak(k) && NoBreak(v)
    ensures NoBreak(Assignment(k, v))
  {}

  /** A clean key written with a value reads back as that key, whatever the value; the value
      comes back stripped. */
  lemma EntryOfAssignment(k: string, v: string)
    requires CleanKey(k)
    ensures Entry(Assignment(k, v)) == Some((k, Strip(RStrip(v))))
  {
    var line := Assignment(k, v);
    var a := k + "=";
    assert line == a + v;
    assert !IsSpace(line[0]) by { assert line[0] == if k == "" then '=' else k[0]; }
    RStripTail(a, v);
    var t := a + RStrip(v);
    assert Strip(line) == t;
    FirstEquals(k, RStrip(v));
    StripFixed(k);
  }

  lemma FirstEquals(k: string, v: string)
    requires '=' !in k
    ensures var t := k + "=" + v; '=' in t && IndexOf('=', t) == |k| && t[..|k|] == k && t[|k| + 1..] == v
  {
    var t := k + "=" + v;
    assert t[|k|] == '=';
    assert forall j :: 0 <= j < |k| ==> t[j] == k[j];
    assert forall i :: |k| < i <= |t| ==> t[..i][|k|] == '=';
  }

  lemma SliceNoBreak(s: string, i: nat, j: nat)
    requires NoBreak(s) && i <= j <= |s|
    ensures NoBreak(s[i..j])
  {}

  /** What a line without line breaks assigns is clean. */
  lemma EntryIsClean(line: string)
    requires NoBreak(line) && Entry(line).Some?
    ensures CleanKey(Entry(line).value.0) && CleanValue(Entry(line).value.1)
  {
    var t := Strip(line);
    var a, b := StripCuts(line);
    var i := IndexOf('=', t);
    var c, d := StripCuts(t[..i]);
    var e, f := StripCuts(t[i + 1..]);
    var k := Strip(t[..i]);
    assert NoBreak(t) by { SliceNoBreak(line, a, b); }
    assert NoBreak(t[..i]) by { SliceNoBreak(t, 0, i); }
    assert NoBreak(k) by { SliceNoBreak(t[..i], c, d); }
    assert NoBreak(Strip(t[i + 1..])) by { SliceNoBreak(t, i + 1, |t|); SliceNoBreak(t[i + 1..], e, f); }
    assert '=' !in k by { assert forall j :: 0 <= j < |k| ==> k[j] == t[..i][c + j]; }
    if i > 0 {
      assert t[..i][0] == t[0];
    }
  }
}
