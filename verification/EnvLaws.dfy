/** What the three agent.env writers promise together with the reader, and exactly when. */
module EnvLaws {
  import opened Text
  import opened EnvFile

  /** Written with its value from `u`, every key of `u` reads back with its value from `w`. */
  ghost predicate ReadsBack(u: map<string, string>, w: map<string, string>) {
    u.Keys == w.Keys && forall k :: k in u ==> Entry(Assignment(k, u[k])) == Some((k, w[k]))
  }

  // ---- the reader as an algebra ---------------------------------------------

  lemma {:induction false} FillConcat(a: seq<Option<(string, string)>>, b: seq<Option<(string, string)>>)
    ensures Fill(a + b) == Fill(a) + Fill(b)
  {
    if b == [] {
      assert a + b == a;
    } else {
      var n := |b| - 1;
      assert (a + b)[..|a + b| - 1] == a + b[..n];
      FillConcat(a, b[..n]);
    }
  }

  lemma ReadConcat(a: seq<string>, b: seq<string>)
    ensures ReadLines(a + b) == ReadLines(a) + ReadLines(b)
  {
    assert Entries(a + b) == Entries(a) + Entries(b);
    FillConcat(Entries(a), Entries(b));
  }

  /** Entries replaced in place: same keys, new values for the keys of `w`. */
  lemma {:induction false} FillReplaced(es: seq<Option<(string, string)>>, fs: seq<Option<(string, string)>>,
                                        w: map<string, string>)
    requires |es| == |fs|
    requires forall i :: 0 <= i < |es| ==>
      fs[i] == if es[i].Some? && es[i].value.0 in w then Some((es[i].value.0, w[es[i].value.0])) else es[i]
    ensures Fill(fs) == map k | k in Fill(es) :: if k in w then w[k] else Fill(es)[k]
  {
    if es != [] {
      FillReplaced(es[..|es| - 1], fs[..|fs| - 1], w);
    }
  }

  /** The reader only ever produces clean keys and values. */
  lemma {:induction false} FillKeeps(es: seq<Option<(string, string)>>, k: string)
    requires k in Fill(es)
    ensures exists i :: 0 <= i < |es| && es[i] == Some((k, Fill(es)[k]))
  {
    var n := |es| - 1;
    if es[n].None? || es[n].value.0 != k {
      FillKeeps(es[..n], k);
    }
  }

  lemma ReadIsClean(lines: seq<string>)
    requires NoBreaks(lines)
    ensures AllClean(ReadLines(lines))
  {
    forall k | k in ReadLines(lines) ensures CleanKey(k) && CleanValue(ReadLines(lines)[k]) {
      FillKeeps(Entries(lines), k);
      var i :| 0 <= i < |lines| && Entries(lines)[i] == Some((k, ReadLines(lines)[k]));
      EntryIsClean(lines[i]);
    }
  }

  lemma ReadJoined(lines: seq<string>)
    requires NoBreaks(lines)
    ensures ReadEnv(JoinLines(lines)) == ReadLines(lines)
  {
    if lines == [] {
      SplitOneLine("");
      assert "" + "\n" == "\n";
      assert Entries([""])[..0] == [];
    } else {
      SplitUnlines(lines);
    }
  }

  lemma ReadRewritten(lines: seq<string>, u: map<string, string>, w: map<string, string>)
    requires ReadsBack(u, w)
    ensures ReadLines(RewriteLines(lines, u))
         == map k | k in ReadLines(lines) :: if k in w then w[k] else ReadLines(lines)[k]
  {
    FillReplaced(Entries(lines), Entries(RewriteLines(lines, u)), w);
  }

  lemma {:induction false} FillPairs(es: seq<Option<(string, string)>>, keys: seq<string>, w: map<string, string>)
    requires |es| == |keys| && forall k :: k in keys ==> k in w
    requires forall i :: 0 <= i < |es| ==> es[i] == Some((keys[i], w[keys[i]]))
    ensures Fill(es) == map k | k in keys :: w[k]
  {
    if es != [] {
      var n := |es| - 1;
      FillPairs(es[..n], keys[..n], w);
      assert keys == keys[..n] + [keys[n]];
    }
  }

  lemma FillOne(e: Option<(string, string)>)
    ensures Fill([e]) == match e case None => map[] case Some((k, v)) => map[k := v]
  {
    assert [e][..|[e]| - 1] == [];
  }

  lemma ReadOne(line: string)
    ensures ReadLines([line]) == match Entry(line) case None => map[] case Some((k, v)) => map[k := v]
  {
    FillOne(Entry(line));
    assert Entries([line]) == [Entry(line)];
  }

  lemma ReadHeader(header: string, rest: seq<string>)
    requires Comment(header)
    ensures ReadLines(["", header] + rest) == ReadLines(rest)
  {
    StripFixed(header);
    ReadOne("");
    ReadOne(header);
    ReadConcat([""], [header]);
    assert [""] + [header] == ["", header];
    ReadConcat(["", header], rest);
  }

  lemma ReadAssigned(keys: seq<string>, u: map<string, string>, w: map<string, string>)
    requires ReadsBack(u, w) && forall k :: k in keys ==> k in u
    ensures ReadLines(AssignAll(keys, u)) == map k | k in keys :: w[k]
  {
    hide Entry, Assignment;
    FillPairs(Entries(AssignAll(keys, u)), keys, w);
  }

  lemma ReadAppended(order: seq<string>, u: map<string, string>, w: map<string, string>, except: set<string>,
                     header: string)
    requires ReadsBack(u, w) && Comment(header) && forall k :: k in order <==> k in u
    ensures ReadLines(Appended(order, u, except, header)) == map k | k in w && k !in except :: w[k]
  {
    var keys := Missing(order, except);
    assert u.Keys == w.Keys;
    assert forall k :: k in keys <==> k in w && k !in except;
    AppendedReads(keys, u, w, header);
    hide ReadLines, ReadsBack, Missing, Comment, AssignAll;
    SameKeys(keys, w, except);
  }

  lemma SameKeys(keys: seq<string>, w: map<string, string>, except: set<string>)
    requires forall k :: k in keys <==> k in w && k !in except
    ensures (map k | k in keys :: w[k]) == map k | k in w && k !in except :: w[k]
  {}

  lemma AppendedReads(keys: seq<string>, u: map<string, string>, w: map<string, string>, header: string)
    requires ReadsBack(u, w) && Comment(header) && forall k :: k in keys ==> k in u
    ensures ReadLines(if keys == [] then [] else ["", header] + AssignAll(keys, u)) == map k | k in keys :: w[k]
  {
    ReadAssigned(keys, u, w);
    hide Entry, Assignment, ReadsBack;
    if keys != [] {
      ReadHeader(header, AssignAll(keys, u));
    }
  }

  /** The merged lines, read line by line, are the old mapping overlaid with the updates. */
  lemma ReadMergedLines(lines: seq<string>, u: map<string, string>, w: map<string, string>, order: seq<string>,
                        header: string)
    requires ReadsBack(u, w) && Enumerates(order, u) && Comment(header)
    ensures ReadLines(MergedLines(lines, u, order, header)) == ReadLines(lines) + w
  {
    hide Entry, Assignment, RewriteLine, Appended, ReadLines;
    var ex := Updated(lines, u);
    ReadRewritten(lines, u, w);
    ReadAppended(order, u, w, ex, header);
    var a, b := ReadLines(RewriteLines(lines, u)), ReadLines(Appended(order, u, ex, header));
    ReadConcat(RewriteLines(lines, u), Appended(order, u, ex, header));
    assert b == map k | k in w && k !in ReadLines(lines) :: w[k];
    Overlay(ReadLines(lines), w, a, b);
  }

  lemma Overlay(old_: map<string, string>, w: map<string, string>, a: map<string, string>, b: map<string, string>)
    requires a == map k | k in old_ :: if k in w then w[k] else old_[k]
    requires b == map k | k in w && k !in old_ :: w[k]
    ensures a + b == old_ + w
  {}

  lemma RewriteShape(line: string, u: map<string, string>)
    ensures RewriteLine(line, u) == line || exists k :: k in u && RewriteLine(line, u) == Assignment(k, u[k])
  {
    hide Strip, IndexOf, Assignment;
  }

  /** Every merged line is an old line that assigns no updated key, an assignment of an
      update, blank, or the header. */
  lemma MergedShape(lines: seq<string>, u: map<string, string>, order: seq<string>, header: string, l: string)
    requires Enumerates(order, u) && l in MergedLines(lines, u, order, header)
    ensures (l in lines && RewriteLine(l, u) == l) || l == "" || l == header
         || exists k :: k in u && l == Assignment(k, u[k])
  {
    hide Entry, Assignment, RewriteLine, Missing, Updated;
    var m := MergedLines(lines, u, order, header);
    var j :| 0 <= j < |m| && m[j] == l;
    if j < |lines| {
      RewriteShape(lines[j], u);
    } else {
      var keys := Missing(order, Updated(lines, u));
      var i := j - |lines| - 2;
      if i >= 0 {
        assert l == AssignAll(keys, u)[i] && keys[i] in u;
      }
    }
  }

  lemma CleanReadsBack(u: map<string, string>)
    requires AllClean(u)
    ensures ReadsBack(u, u)
  {
    forall k | k in u ensures Entry(Assignment(k, u[k])) == Some((k, u[k])) {
      EntryOfAssignment(k, u[k]);
      StripFixed(u[k]);
    }
  }

  // ---- overlay law -------------------------------------------------------------

  lemma MergedNoBreaks(lines: seq<string>, u: map<string, string>, order: seq<string>, header: string)
    requires AllClean(u) && Enumerates(order, u) && Comment(header) && NoBreaks(lines)
    ensures NoBreaks(MergedLines(lines, u, order, header))
  {
    hide Entry, RewriteLine, MergedLines, IsBreak;
    var merged := MergedLines(lines, u, order, header);
    forall j | 0 <= j < |merged| ensures NoBreak(merged[j]) {
      var l := merged[j];
      MergedShape(lines, u, order, header, l);
      if l !in lines && l != "" && l != header {
        var k :| k in u && l == Assignment(k, u[k]);
        AssignmentNoBreak(k, u[k]);
      }
    }
  }

  lemma OverlayIfClean(text: string, u: map<string, string>, order: seq<string>, header: string)
    requires AllClean(u) && Enumerates(order, u) && Comment(header)
    ensures NoBreaks(MergedLines(SplitLines(text), u, order, header))
    ensures ReadEnv(Merged(text, u, order, header)) == ReadEnv(text) + u
  {
    hide Entry, JoinLines, NoBreaks, Enumerates, MergedLines, SplitLines;
    var lines := SplitLines(text);
    SplitNoBreaks(text);
    var merged := MergedLines(lines, u, order, header);
    MergedNoBreaks(lines, u, order, header);
    ReadJoined(merged);
    assert ReadsBack(u, u) by { CleanReadsBack(u); }
    ReadMergedLines(lines, u, u, order, header);
  }

  lemma CleanIfOverlay(text: string, u: map<string, string>, old_: map<string, string>)
    requires ReadEnv(text) == old_ + u
    ensures AllClean(u)
  {
    SplitNoBreaks(text);
    ReadIsClean(SplitLines(text));
    assert forall k :: k in u ==> k in ReadEnv(text) && ReadEnv(text)[k] == u[k];
  }

  /** Reading the file after a merge gives the old mapping overlaid with the updates
      exactly when every updated key and value is clean. */
  lemma OverlayLaw(text: string, u: map<string, string>, order: seq<string>, header: string)
    requires Enumerates(order, u) && Comment(header)
    ensures ReadEnv(Merged(text, u, order, header)) == ReadEnv(text) + u <==> AllClean(u)
  {
    if AllClean(u) {
      OverlayIfClean(text, u, order, header);
    }
    if ReadEnv(Merged(text, u, order, header)) == ReadEnv(text) + u {
      CleanIfOverlay(Merged(text, u, order, header), u, ReadEnv(text));
    }
  }

  /** Whatever the updates, the provisioner's file and the config push's file read the same. */
  lemma WritersAgree(text: string, u: map<string, string>, order: seq<string>, h1: string, h2: string)
    requires Enumerates(order, u) && Comment(h1) && Comment(h2)
    ensures ReadEnv(Merged(text, u, order, h1)) == ReadEnv(Merged(text, u, order, h2))
  {
    var lines := SplitLines(text);
    var keys := Missing(order, Updated(lines, u));
    var a, rest := RewriteLines(lines, u), AssignAll(keys, u);
    if keys != [] {
      ReadWithHeader(a, h1, rest);
      ReadWithHeader(a, h2, rest);
    }
  }

  lemma ReadWithHeader(a: seq<string>, header: string, rest: seq<string>)
    requires Comment(header)
    ensures ReadEnv(JoinLines(a + (["", header] + rest)))
         == ReadLines(SplitLines(Unlines(a))) + ReadLines(SplitLines(Unlines(rest)))
  {
    hide Entry;
    SplitUnlinesConcat(a, ["", header] + rest);
    SplitUnlinesConcat(["", header], rest);
    SplitUnlines(["", header]);
    ReadHeader(header, SplitLines(Unlines(rest)));
    ReadConcat(SplitLines(Unlines(a)), ["", header] + SplitLines(Unlines(rest)));
  }

  // ---- idempotence -------------------------------------------------------------

  /** The lines a reader gets from one written line. */
  function Written(l: string): seq<string> {
    SplitLines(l + "\n")
  }

  /** The value stays on the line it is written on: no line break, except that one final
      carriage return merges with the line feed behind it. */
  ghost predicate OneLine(v: string) {
    |Written(v)| == 1
  }

  lemma {:induction false} SplitUnlinesCount(lines: seq<string>)
    ensures |SplitLines(Unlines(lines))| >= |lines|
    ensures (forall l :: l in lines ==> |Written(l)| == 1) ==>
      |SplitLines(Unlines(lines))| == |lines|
      && forall i :: 0 <= i < |lines| ==> SplitLines(Unlines(lines))[i] == Written(lines[i])[0]
    ensures (exists l :: l in lines && |Written(l)| > 1) ==> |SplitLines(Unlines(lines))| > |lines|
  {
    if lines != [] {
      hide SplitLines, Unlines;
      SplitUnlinesCount(lines[1..]);
      UnlinesHead(lines);
      WrittenSome(lines[0]);
      hide Written;
      assert lines == [lines[0]] + lines[1..];
    }
  }

  lemma UnlinesHead(lines: seq<string>)
    requires lines != []
    ensures SplitLines(Unlines(lines)) == Written(lines[0]) + SplitLines(Unlines(lines[1..]))
  {
    SplitAtNewline(lines[0], Unlines(lines[1..]));
  }

  lemma WrittenSome(l: string)
    ensures |Written(l)| >= 1
  {
    assert (l + "\n")[|l|] == '\n';
  }

  /** The first line of a written assignment still assigns its key, and is all of it when
      the value is one line. */
  lemma WrittenAssignment(k: string, v: string)
    requires CleanKey(k)
    ensures Entry(Written(Assignment(k, v))[0]).Some? && Entry(Written(Assignment(k, v))[0]).value.0 == k
    ensures |Written(Assignment(k, v))| == |Written(v)|
  {
    var p, b := k + "=", v + "\n";
    assert b[|v|] == '\n';
    assert NoBreak(p) by { assert forall i :: 0 <= i < |k| ==> p[i] == k[i]; }
    assert Assignment(k, v) + "\n" == p + b;
    SplitPrefixed(p, b);
    EntryOfAssignment(k, b[..FirstBreak(b)]);
  }

  /** Text without line breaks put in front lengthens the first line only. */
  lemma SplitPrefixed(p: string, b: string)
    requires NoBreak(p) && '\n' in b
    ensures SplitLines(b) != [] && SplitLines(b)[0] == b[..FirstBreak(b)]
    ensures SplitLines(p + b) == [p + b[..FirstBreak(b)]] + SplitLines(b)[1..]
  {
    hide *;
    var n, a := FirstBreak(b), p + b;
    assert n < |b| by { HasBreak(b); }
    FirstBreakShifts(p, b);
    SplitFirst(a);
    SplitFirst(b);
    PrefixGeometry(p, b, n);
  }

  lemma PrefixGeometry(p: string, b: string, n: nat)
    requires n < |b|
    ensures (p + b)[..|p| + n] == p + b[..n]
    ensures BreakWidth(p + b, |p| + n) == BreakWidth(b, n)
    ensures (p + b)[|p| + n + BreakWidth(b, n)..] == b[n + BreakWidth(b, n)..]
  {}

  lemma {:induction false} HasBreak(b: string)
    requires '\n' in b
    ensures FirstBreak(b) < |b|
  {
    if !IsBreak(b[0]) {
      HasBreak(b[1..]);
    }
  }

  lemma {:induction false} FirstBreakShifts(p: string, b: string)
    requires NoBreak(p)
    ensures FirstBreak(p + b) == |p| + FirstBreak(b)
  {
    if p == "" {
      assert p + b == b;
    } else {
      assert (p + b)[1..] == p[1..] + b;
      FirstBreakShifts(p[1..], b);
    }
  }

  /** A key some line assigns is read back, and vice versa. */
  lemma KeyHasLine(lines: seq<string>, k: string)
    ensures k in ReadLines(lines) <==>
      exists i :: 0 <= i < |lines| && Entry(lines[i]).Some? && Entry(lines[i]).value.0 == k
  {
    hide Entry;
    var es := Entries(lines);
    if k in Fill(es) {
      FillKeeps(es, k);
    }
    if i :| 0 <= i < |lines| && Entry(lines[i]).Some? && Entry(lines[i]).value.0 == k {
      assert es[i].Some?;
      FillHas(es, i);
    }
  }

  lemma {:induction false} FillHas(es: seq<Option<(string, string)>>, i: nat)
    requires i < |es| && es[i].Some?
    ensures es[i].value.0 in Fill(es)
  {
    if i < |es| - 1 {
      FillHas(es[..|es| - 1], i);
    }
  }

  /** A merge never gets by with fewer lines than it was given, and appends as soon as an
      updated key is assigned nowhere. */
  lemma MergedLength(lines: seq<string>, u: map<string, string>, order: seq<string>, header: string)
    requires Enumerates(order, u)
    ensures |MergedLines(lines, u, order, header)| >= |lines|
    ensures u.Keys <= ReadLines(lines).Keys <==> MergedLines(lines, u, order, header) == RewriteLines(lines, u)
    ensures !(u.Keys <= ReadLines(lines).Keys) ==> |MergedLines(lines, u, order, header)| > |lines|
  {
    hide Entry, ReadLines, RewriteLine;
    var keys := Missing(order, Updated(lines, u));
    assert forall k :: k in keys <==> k in u && k !in ReadLines(lines);
    if keys == [] {
      assert RewriteLines(lines, u) + [] == RewriteLines(lines, u);
    } else {
      assert keys[0] in keys;
    }
  }

  lemma UncleanKeyAppends(text: string, u: map<string, string>, k: string)
    requires k in u && !CleanKey(k)
    ensures !(u.Keys <= ReadEnv(text).Keys)
  {
    SplitNoBreaks(text);
    ReadIsClean(SplitLines(text));
  }

  /** Every update ends up on a line of its own. */
  lemma MergedAssigns(lines: seq<string>, u: map<string, string>, order: seq<string>, header: string, k: string)
    requires Enumerates(order, u) && k in u
    ensures Assignment(k, u[k]) in MergedLines(lines, u, order, header)
  {
    hide Entry, Assignment, Missing;
    var m := MergedLines(lines, u, order, header);
    var keys := Missing(order, Updated(lines, u));
    KeyHasLine(lines, k);
    if k in ReadLines(lines) {
      var i :| 0 <= i < |lines| && Entry(lines[i]).Some? && Entry(lines[i]).value.0 == k;
      assert m[i] == Assignment(k, u[k]);
    } else {
      var i :| 0 <= i < |keys| && keys[i] == k;
      assert AssignAll(keys, u)[i] == Assignment(k, u[k]);
      assert m[|lines| + 2 + i] == AssignAll(keys, u)[i];
    }
  }

  lemma {:induction false} WrittenIn(lines: seq<string>, l: string)
    requires l in lines
    ensures Written(l)[..1] <= Written(l) && Written(l)[0] in SplitLines(Unlines(lines))
  {
    WrittenSome(l);
    UnlinesHead(lines);
    hide SplitLines, Unlines, Written;
    if l != lines[0] {
      WrittenIn(lines[1..], l);
    }
  }

  /** A second merge that leaves the text as it is had clean keys and one-line values. */
  lemma IdempotentOnlyIf(text: string, u: map<string, string>, order: seq<string>, header: string, k: string)
    requires Enumerates(order, u) && Comment(header) && k in u
    requires var once := Merged(text, u, order, header); Merged(once, u, order, header) == once
    ensures CleanKey(k) && OneLine(u[k])
  {
    var m1 := MergedLines(SplitLines(text), u, order, header);
    var once := Merged(text, u, order, header);
    var l1 := SplitLines(once);
    var m2 := MergedLines(l1, u, order, header);
    MergedAssigns(SplitLines(text), u, order, header, k);
    WrittenIn(m1, Assignment(k, u[k]));
    MergedLength(l1, u, order, header);
    SplitUnlinesCount(m2);
    hide SplitLines, Unlines, MergedLines, Assignment, Entry, IsSpace, IsBreak, ReadLines;
    if !CleanKey(k) {
      UncleanKeyAppends(once, u, k);
      assert false;
    }
    hide CleanKey;
    if !OneLine(u[k]) {
      MergedAssigns(l1, u, order, header, k);
      WrittenAssignment(k, u[k]);
      WrittenSome(u[k]);
      assert false;
    }
  }

  ghost predicate SettledUpdates(u: map<string, string>) {
    forall k :: k in u ==> CleanKey(k) && OneLine(u[k])
  }

  lemma CommentIsNoEntry(header: string)
    requires Comment(header)
    ensures Entry(header).None?
  {
    StripFixed(header);
  }

  lemma BlankIsNoEntry()
    ensures Entry("").None?
  {}

  /** One merged line, read back and merged again, is the same line. */
  lemma LineSettles(lines: seq<string>, u: map<string, string>, order: seq<string>, header: string, l: string)
    requires Enumerates(order, u) && Comment(header) && SettledUpdates(u) && NoBreaks(lines)
    requires l in MergedLines(lines, u, order, header)
    ensures |Written(l)| == 1 && RewriteLine(Written(l)[0], u) == l
  {
    MergedShape(lines, u, order, header, l);
    hide MergedLines, Enumerates, Entry, IsSpace, IsBreak, RewriteLine;
    if k :| k in u && l == Assignment(k, u[k]) {
      AssignmentSettles(k, u);
    } else {
      assert NoBreak(l);
      SplitOneLine(l);
      if l !in lines { QuietSettles(l, u); }
    }
  }

  lemma AssignmentSettles(k: string, u: map<string, string>)
    requires k in u && CleanKey(k) && OneLine(u[k])
    ensures |Written(Assignment(k, u[k]))| == 1
    ensures RewriteLine(Written(Assignment(k, u[k]))[0], u) == Assignment(k, u[k])
  {
    WrittenAssignment(k, u[k]);
    hide Assignment, Entry, CleanKey;
  }

  lemma QuietSettles(l: string, u: map<string, string>)
    requires l == "" || Comment(l)
    ensures RewriteLine(l, u) == l
  {
    if l == "" { BlankIsNoEntry(); } else { CommentIsNoEntry(l); }
  }

  lemma IdempotentIf(text: string, u: map<string, string>, order: seq<string>, header: string)
    requires Enumerates(order, u) && Comment(header) && SettledUpdates(u)
    ensures var once := Merged(text, u, order, header); Merged(once, u, order, header) == once
  {
    var lines := SplitLines(text);
    SplitNoBreaks(text);
    var m1 := MergedLines(lines, u, order, header);
    var l1 := SplitLines(JoinLines(m1));
    if m1 == [] {
      if k :| k in u { MergedAssigns(lines, u, order, header, k); assert false; }
      assert u == map[];
      SplitOneLine("");
      assert JoinLines(m1) == "" + "\n";
      assert Entry("").None?;
      assert RewriteLines([""], u) == [""];
      MergedLength([""], u, order, header);
    } else {
      forall l | l in m1 ensures |Written(l)| == 1 && RewriteLine(Written(l)[0], u) == l {
        LineSettles(lines, u, order, header, l);
      }
      SplitUnlinesCount(m1);
      hide SplitLines, Unlines, MergedLines, Entry, SettledUpdates, NoBreaks, Comment;
      assert RewriteLines(l1, u) == m1;
      assert u.Keys <= ReadLines(l1).Keys by { SettledKeys(text, u, order, header, l1); }
      MergedLength(l1, u, order, header);
    }
  }

  lemma SettledKeys(text: string, u: map<string, string>, order: seq<string>, header: string, l1: seq<string>)
    requires Enumerates(order, u) && SettledUpdates(u)
    requires l1 == SplitLines(Unlines(MergedLines(SplitLines(text), u, order, header)))
    ensures u.Keys <= ReadLines(l1).Keys
  {
    var m1 := MergedLines(SplitLines(text), u, order, header);
    forall k | k in u ensures k in ReadLines(l1) {
      MergedAssigns(SplitLines(text), u, order, header, k);
      WrittenIn(m1, Assignment(k, u[k]));
      WrittenAssignment(k, u[k]);
      KeyHasLine(l1, k);
    }
  }

  /** Merging the same updates twice gives the same text as merging them once, exactly when
      every key is clean and every value stays on its line. */
  lemma Idempotent(text: string, u: map<string, string>, order: seq<string>, header: string)
    requires Enumerates(order, u) && Comment(header)
    ensures var once := Merged(text, u, order, header);
      Merged(once, u, order, header) == once <==> SettledUpdates(u)
  {
    var once := Merged(text, u, order, header);
    if SettledUpdates(u) {
      IdempotentIf(text, u, order, header);
    }
    if Merged(once, u, order, header) == once {
      forall k | k in u ensures CleanKey(k) && OneLine(u[k]) {
        IdempotentOnlyIf(text, u, order, header, k);
      }
    }
  }

  // ---- what a merge leaves alone -------------------------------------------------

  /** Comments, blank lines and assignments of other keys, in file order. */
  function Unrelated(lines: seq<string>, u: map<string, string>): seq<string> {
    if lines == [] then [] else
      (match Entry(lines[0])
       case Some((k, _)) => if k in u then [] else [lines[0]]
       case None => [lines[0]])
      + Unrelated(lines[1..], u)
  }

  lemma {:induction false} UnrelatedConcat(a: seq<string>, b: seq<string>, u: map<string, string>)
    ensures Unrelated(a + b, u) == Unrelated(a, u) + Unrelated(b, u)
  {
    hide Entry;
    if a == [] {
      assert a + b == b;
    } else {
      assert (a + b)[1..] == a[1..] + b;
      UnrelatedConcat(a[1..], b, u);
    }
  }

  /** What writing the update of `k` puts among the unrelated lines: nothing, unless the key is
      not read back or the value breaks into further lines. */
  function Spill(k: string, u: map<string, string>): seq<string>
    requires k in u
  {
    Unrelated(Written(Assignment(k, u[k])), u)
  }

  ghost predicate NothingSpills(u: map<string, string>) {
    forall k :: k in u ==> Spill(k, u) == []
  }

  /** The unrelated lines a reader gets from these lines written one by one. */
  function Read(lines: seq<string>, u: map<string, string>): seq<string> {
    if lines == [] then [] else Unrelated(Written(lines[0]), u) + Read(lines[1..], u)
  }

  lemma {:induction false} ReadOfUnlines(lines: seq<string>, u: map<string, string>)
    ensures Unrelated(SplitLines(Unlines(lines)), u) == Read(lines, u)
  {
    if lines == [] {
      assert Unlines([]) == "" && SplitLines("") == [];
    } else {
      hide SplitLines, Unlines, Written;
      ReadOfUnlines(lines[1..], u);
      UnlinesHead(lines);
      UnrelatedConcat(Written(lines[0]), SplitLines(Unlines(lines[1..])), u);
    }
  }

  lemma {:induction false} ReadAppend(a: seq<string>, b: seq<string>, u: map<string, string>)
    ensures Read(a + b, u) == Read(a, u) + Read(b, u)
  {
    hide Unrelated, Written;
    if a == [] {
      assert a + b == b;
    } else {
      assert (a + b)[1..] == a[1..] + b;
      ReadAppend(a[1..], b, u);
    }
  }

  lemma UnrelatedOne(l: string, u: map<string, string>)
    ensures Unrelated([l], u) == if Entry(l).Some? && Entry(l).value.0 in u then [] else [l]
  {
    hide Entry;
    assert [l][1..] == [];
  }

  lemma WrittenWhole(l: string)
    requires NoBreak(l)
    ensures Written(l) == [l]
  {
    SplitOneLine(l);
  }

  /** A line of the file, written back by a merge: an assignment of an update spills what that
      update spills, every other line is read back as it is. */
  lemma ReadRewrittenLine(l: string, u: map<string, string>)
    requires NoBreak(l)
    ensures Unrelated(Written(RewriteLine(l, u)), u)
         == if Entry(l).Some? && Entry(l).value.0 in u then Spill(Entry(l).value.0, u) else Unrelated([l], u)
  {
    WrittenWhole(l);
    hide Entry, Written, Unrelated;
  }

  lemma {:induction false} ReadRewrites(lines: seq<string>, u: map<string, string>)
    requires NoBreaks(lines)
    ensures |Read(RewriteLines(lines, u), u)| >= |Unrelated(lines, u)|
    ensures NothingSpills(u) ==> Read(RewriteLines(lines, u), u) == Unrelated(lines, u)
    ensures (exists i :: 0 <= i < |lines| && SpillsAt(lines[i], u)) ==>
      |Read(RewriteLines(lines, u), u)| > |Unrelated(lines, u)|
  {
    if lines != [] {
      var l, rest := lines[0], lines[1..];
      ReadRewrites(rest, u);
      ReadRewrittenLine(l, u);
      UnrelatedOne(l, u);
      assert [l] + rest == lines;
      UnrelatedConcat([l], rest, u);
      assert RewriteLines(lines, u)[1..] == RewriteLines(rest, u);
      hide Entry, Written, Unrelated, RewriteLine, Spill, NoBreak;
      ReadRewritesOne(l, rest, u);
    }
  }

  /** The line assigns an update that spills. */
  ghost predicate SpillsAt(l: string, u: map<string, string>) {
    Entry(l).Some? && Entry(l).value.0 in u && Spill(Entry(l).value.0, u) != []
  }

  lemma ReadRewritesOne(l: string, rest: seq<string>, u: map<string, string>)
    ensures (exists i :: 0 <= i < |[l] + rest| && SpillsAt(([l] + rest)[i], u))
      <==> SpillsAt(l, u) || exists i :: 0 <= i < |rest| && SpillsAt(rest[i], u)
  {
    hide SpillsAt;
    var all := [l] + rest;
    assert all[0] == l && forall i :: 0 <= i < |rest| ==> all[i + 1] == rest[i];
    assert forall i :: 1 <= i < |all| ==> all[i] == rest[i - 1];
  }

  lemma {:induction false} ReadAssigns(keys: seq<string>, u: map<string, string>)
    requires forall k :: k in keys ==> k in u
    ensures NothingSpills(u) ==> Read(AssignAll(keys, u), u) == []
    ensures (exists k :: k in keys && Spill(k, u) != []) ==> Read(AssignAll(keys, u), u) != []
  {
    if keys != [] {
      ReadAssigns(keys[1..], u);
      assert AssignAll(keys, u)[1..] == AssignAll(keys[1..], u);
      assert keys == [keys[0]] + keys[1..];
      assert Read(AssignAll(keys, u), u) == Spill(keys[0], u) + Read(AssignAll(keys[1..], u), u);
      hide Assignment, Unrelated, Written, Spill, Read;
    }
  }

  lemma ReadHeading(header: string, u: map<string, string>)
    requires Comment(header)
    ensures Read(["", header], u) == ["", header]
  {
    WrittenWhole("");
    WrittenWhole(header);
    BlankIsNoEntry();
    CommentIsNoEntry(header);
    UnrelatedOne("", u);
    UnrelatedOne(header, u);
    hide Entry, Comment, Written, Unrelated;
    assert ["", header][1..] == [header] && [header][1..] == [];
    assert Read([header], u) == [header] + Read([], u);
  }

  /** The unrelated lines of a file after a merge, where nothing spills. */
  function LeftAlone(lines: seq<string>, u: map<string, string>, header: string): seq<string> {
    Unrelated(lines, u) + if u.Keys <= ReadLines(lines).Keys then [] else ["", header]
  }

  lemma ReadMerged(lines: seq<string>, u: map<string, string>, order: seq<string>, header: string)
    requires NoBreaks(lines) && Enumerates(order, u) && Comment(header)
    ensures Read(MergedLines(lines, u, order, header), u) == LeftAlone(lines, u, header) <==> NothingSpills(u)
  {
    var keys := Missing(order, Updated(lines, u));
    var a, b := RewriteLines(lines, u), AssignAll(keys, u);
    ReadRewrites(lines, u);
    ReadAssigns(keys, u);
    ReadHeading(header, u);
    MergedLength(lines, u, order, header);
    SpillShows(lines, u, order);
    hide Entry, Assignment, Comment, Unrelated, Read, Spill, RewriteLines, AssignAll, NoBreaks, ReadLines;
    hide Updated, SpillsAt;
    if keys == [] {
      assert a + [] == a;
    } else {
      ReadAppend(a, ["", header] + b, u);
      ReadAppend(["", header], b, u);
      assert keys[0] in u && keys[0] !in ReadLines(lines) by { MissingIsMissing(lines, u, order); }
    }
    hide NothingSpills, Missing;
  }

  lemma MissingIsMissing(lines: seq<string>, u: map<string, string>, order: seq<string>)
    requires Enumerates(order, u)
    ensures forall k :: k in Missing(order, Updated(lines, u)) <==> k in u && k !in ReadLines(lines)
  {
    hide ReadLines;
  }

  /** An update that spills does so on a line that assigns it or among the appended ones. */
  lemma SpillShows(lines: seq<string>, u: map<string, string>, order: seq<string>)
    requires Enumerates(order, u)
    ensures NothingSpills(u)
      || (exists i :: 0 <= i < |lines| && SpillsAt(lines[i], u))
      || (exists k :: k in Missing(order, Updated(lines, u)) && Spill(k, u) != [])
  {
    MissingIsMissing(lines, u, order);
    hide Entry, Spill, ReadLines, Updated, Missing;
    if k :| k in u && Spill(k, u) != [] {
      KeyHasLine(lines, k);
      if k in ReadLines(lines) {
        var i :| 0 <= i < |lines| && Entry(lines[i]).Some? && Entry(lines[i]).value.0 == k;
        assert SpillsAt(lines[i], u);
      }
    }
  }

  /** Comments and unrelated lines keep their text and order, and a merge adds to them only a
      blank line and its header where it appends, exactly if no update spills: if each key is
      read back and no value breaks into lines of its own. (With nothing to write and no lines,
      the file becomes one blank line.) */
  lemma UnrelatedKept(text: string, u: map<string, string>, order: seq<string>, header: string)
    requires Enumerates(order, u) && Comment(header)
    ensures var lines := SplitLines(text);
      Unrelated(SplitLines(Merged(text, u, order, header)), u)
        == (if MergedLines(lines, u, order, header) == [] then [""] else LeftAlone(lines, u, header))
      <==> NothingSpills(u)
  {
    var lines := SplitLines(text);
    SplitNoBreaks(text);
    ReadMerged(lines, u, order, header);
    var merged := MergedLines(lines, u, order, header);
    if merged == [] {
      assert NothingSpills(u) by {
        if k :| k in u { MergedAssigns(lines, u, order, header, k); assert false; }
      }
      SplitOneLine("");
      UnrelatedOne("", u);
      BlankIsNoEntry();
      assert "" + "\n" == "\n";
    } else {
      ReadOfUnlines(merged, u);
    }
    hide NothingSpills, MergedLines, Unrelated, LeftAlone;
  }

  /** Clean updates spill nothing. */
  lemma CleanSpillsNothing(u: map<string, string>)
    requires AllClean(u)
    ensures NothingSpills(u)
  {
    forall k | k in u ensures Spill(k, u) == [] {
      EntryOfAssignment(k, u[k]);
      AssignmentNoBreak(k, u[k]);
      WrittenWhole(Assignment(k, u[k]));
      UnrelatedOne(Assignment(k, u[k]), u);
    }
  }

  /** Whatever the updates, no line of the file that assigns none of them is lost or changed. */
  lemma NothingIsLost(text: string, u: map<string, string>, order: seq<string>, header: string, l: string)
    requires Enumerates(order, u) && l in Unrelated(SplitLines(text), u)
    ensures l in Unrelated(SplitLines(Merged(text, u, order, header)), u)
  {
    var lines := SplitLines(text);
    SplitNoBreaks(text);
    UnrelatedIn(lines, u, l);
    var merged := MergedLines(lines, u, order, header);
    var i :| 0 <= i < |lines| && lines[i] == l;
    assert RewriteLines(lines, u)[i] == l && merged[i] == l;
    ReadOfUnlines(merged, u);
    WrittenWhole(l);
    UnrelatedOne(l, u);
    hide SplitLines, Unrelated, Written, Entry, MergedLines;
    ReadHas(merged, u, i);
  }

  lemma {:induction false} UnrelatedIn(lines: seq<string>, u: map<string, string>, l: string)
    requires l in Unrelated(lines, u)
    ensures l in lines && !(Entry(l).Some? && Entry(l).value.0 in u)
  {
    hide Entry;
    if l !in Unrelated(lines[..1], u) {
      assert lines == [lines[0]] + lines[1..];
      UnrelatedIn(lines[1..], u, l);
    } else {
      UnrelatedOne(lines[0], u);
      assert lines[..1] == [lines[0]];
    }
  }

  lemma {:induction false} ReadHas(lines: seq<string>, u: map<string, string>, i: nat)
    requires i < |lines| && Unrelated(Written(lines[i]), u) == [lines[i]]
    ensures lines[i] in Read(lines, u)
  {
    hide Unrelated, Written;
    if i > 0 {
      ReadHas(lines[1..], u, i - 1);
    }
  }
}
