/** The bind-mount policy of the container handler and the volume table it hands to Docker.
    `resolve` stands for `realpath`. */
module Volumes {
  import opened Text
  import opened Mounts

  /** What a payload field holds: missing, some other type, or text. */
  datatype Field = Missing | NotText | Word(text: string)

  datatype Spec = NotADict | Dict(host: Field, container: Field, mode: Field)

  datatype Mount = Mount(bind: string, mode: string)

  ghost predicate Proper(resolve: string -> Path) {
    forall s :: ProperPath(resolve(s))
  }

  /** Staged by the agent, or at or below a directory the operator listed. */
  ghost predicate Allowed(host: string, tmpDir: string, allowlist: seq<string>, resolve: string -> Path) {
    var p, t := resolve(host), resolve(tmpDir);
    || (|t| < |p| && t <= p && STAGING_PREFIX <= p[|t|])
    || exists k :: 0 <= k < |allowlist| && Listed(p, allowlist[k], resolve)
  }

  predicate Listed(p: Path, entry: string, resolve: string -> Path) {
    Strip(entry) != "" && resolve(Strip(entry)) <= p
  }

  /** `_check_mount_allowed`; false stands for its ValueError. */
  method CheckMountAllowed(host: string, tmpDir: string, allowlist: seq<string>, resolve: string -> Path)
    returns (ok: bool)
    requires Proper(resolve)
    ensures ok <==> Allowed(host, tmpDir, allowlist, resolve)
  {
    hide Strip, IsWithin, UnderStaging, Render;
    var path := Render(resolve(host));
    StagedExactly(resolve(host), resolve(tmpDir));
    if UnderStaging(path, Render(resolve(tmpDir))) {
      return true;
    }
    for i := 0 to |allowlist|
      invariant forall k :: 0 <= k < i ==> !Listed(resolve(host), allowlist[k], resolve)
    {
      var entry := Strip(allowlist[i]);
      WithinExactly(resolve(host), resolve(entry));
      if entry != "" && IsWithin(path, Render(resolve(entry))) {
        assert Listed(resolve(host), allowlist[i], resolve);
        return true;
      }
    }
    return false;
  }

  lemma ListedMore(p: Path, a: seq<string>, entry: string, b: seq<string>, resolve: string -> Path)
    ensures (exists k :: 0 <= k < |a + [entry] + b| && Listed(p, (a + [entry] + b)[k], resolve)) <==>
      (exists k :: 0 <= k < |a + b| && Listed(p, (a + b)[k], resolve)) || Listed(p, entry, resolve)
  {
    var more := a + [entry] + b;
    hide Listed;
    assert more[|a|] == entry;
    if k :| 0 <= k < |a + b| && Listed(p, (a + b)[k], resolve) {
      assert more[if k < |a| then k else k + 1] == (a + b)[k];
    }
    if k :| 0 <= k < |more| && Listed(p, more[k], resolve) && k != |a| {
      assert (a + b)[if k < |a| then k else k - 1] == more[k];
    }
  }

  /** Besides what the agent staged, each entry of the list allows just what it names: every path
      at or below its directory, a blank entry nothing. */
  lemma AllowedEntryByEntry(host: string, tmpDir: string, a: seq<string>, entry: string, b: seq<string>,
                            resolve: string -> Path)
    ensures Allowed(host, tmpDir, a + [entry] + b, resolve) <==>
      || Allowed(host, tmpDir, a + b, resolve)
      || (Strip(entry) != "" && exists below :: resolve(host) == resolve(Strip(entry)) + below)
    ensures Allowed(host, tmpDir, [], resolve) <==>
      exists x, below :: resolve(host) == resolve(tmpDir) + ["hadcd-blobs-" + x] + below
  {
    var p, t, e := resolve(host), resolve(tmpDir), resolve(Strip(entry));
    ListedMore(p, a, entry, b, resolve);
    if e <= p {
      assert p == e + p[|e|..];
    }
    if |t| < |p| && t <= p && STAGING_PREFIX <= p[|t|] {
      var x := p[|t|][|STAGING_PREFIX|..];
      assert p[|t|] == STAGING_PREFIX + x;
      assert p == t + [STAGING_PREFIX + x] + p[|t| + 1..];
    }
  }

  predicate Filled(f: Field) {
    f.Word? && f.text != ""
  }

  function Mode(f: Field): Option<string> {
    if f.Missing? || f == Word("ro") then Some("ro")
    else if f == Word("rw") then Some("rw")
    else None
  }

  function MountOf(v: Spec): Option<Mount> {
    if v.Dict? && Filled(v.host) && Filled(v.container) && Mode(v.mode).Some?
    then Some(Mount(v.container.text, Mode(v.mode).value)) else None
  }

  /** Both paths are given, the mode is "ro", "rw" or missing, and the host path is allowed. */
  ghost predicate Acceptable(v: Spec, tmpDir: string, allowlist: seq<string>, resolve: string -> Path) {
    && v.Dict? && v.host.Word? && v.host.text != "" && v.container.Word? && v.container.text != ""
    && (v.mode.Missing? || v.mode == Word("ro") || v.mode == Word("rw"))
    && Allowed(v.host.text, tmpDir, allowlist, resolve)
  }

  /** The mount of a spec: at its container path, read-only unless it asks for "rw". */
  predicate MountsAs(v: Spec, m: Mount) {
    v.Dict? && v.container == Word(m.bind) && m.mode == if v.mode == Word("rw") then "rw" else "ro"
  }

  /** The last spec that names the host path. */
  ghost predicate LastFor(specs: seq<Spec>, host: string, k: int) {
    && 0 <= k < |specs| && specs[k].Dict? && specs[k].host == Word(host)
    && forall j :: k < j < |specs| && specs[j].Dict? ==> specs[j].host != Word(host)
  }

  /** The table holds, for each host path named, the mount of the last spec that names it. */
  ghost predicate Tabulates(specs: seq<Spec>, table: map<string, Mount>) {
    && (forall host :: host in table ==> exists k :: LastFor(specs, host, k))
    && (forall host, k :: LastFor(specs, host, k) ==>
          host in table && MountsAs(specs[k], table[host]))
  }

  lemma TabulatesMore(specs: seq<Spec>, table: map<string, Mount>, v: Spec)
    requires Tabulates(specs, table)
    requires MountOf(v).Some?
    ensures Tabulates(specs + [v], table[v.host.text := MountOf(v).value])
  {
    var more, after := specs + [v], table[v.host.text := MountOf(v).value];
    assert v.host == Word(v.host.text);
    assert MountsAs(v, MountOf(v).value);
    hide MountOf, MountsAs;
    assert more[|specs|] == v && forall j :: 0 <= j < |specs| ==> more[j] == specs[j];
    forall host | host in after ensures exists k :: LastFor(more, host, k) {
      if host == v.host.text {
        assert LastFor(more, host, |specs|);
      } else {
        var k :| LastFor(specs, host, k);
        assert LastFor(more, host, k);
      }
    }
    forall host, k | LastFor(more, host, k) ensures host in after && MountsAs(more[k], after[host]) {
      if k < |specs| {
        assert host != v.host.text;
        assert LastFor(specs, host, k);
      }
    }
  }

  /** The volume-building part of `_container`, up to and including the output directory.
      None stands for the ValueError that fails the task. */
  method BuildVolumes(specs: seq<Spec>, output: Field, tmpDir: string, allowlist: seq<string>, resolve: string -> Path)
    returns (r: Option<map<string, Mount>>)
    requires Proper(resolve)
    ensures r.Some? <==>
      && (forall k :: 0 <= k < |specs| ==> Acceptable(specs[k], tmpDir, allowlist, resolve))
      && (output.Missing? || (output.Word? && Allowed(output.text, tmpDir, allowlist, resolve)))
    ensures r.Some? ==> forall host :: host in r.value ==> Allowed(host, tmpDir, allowlist, resolve)
    ensures r.Some? && output.Missing? ==> Tabulates(specs, r.value)
    ensures r.Some? && output.Word? ==>
      exists table :: Tabulates(specs, table) && r.value == table[output.text := Mount("/output", "rw")]
  {
    hide Allowed, Tabulates, Proper;
    var table: map<string, Mount> := map[];
    NothingYet();
    for i := 0 to |specs|
      invariant forall k :: 0 <= k < i ==> Acceptable(specs[k], tmpDir, allowlist, resolve)
      invariant Tabulates(specs[..i], table)
      invariant forall host :: host in table ==> Allowed(host, tmpDir, allowlist, resolve)
    {
      assert specs[..i + 1] == specs[..i] + [specs[i]];
      var v := specs[i];
      if !v.Dict? || !Filled(v.host) || !Filled(v.container) || Mode(v.mode) == None {
        return None;
      }
      var ok := CheckMountAllowed(v.host.text, tmpDir, allowlist, resolve);
      if !ok {
        return None;
      }
      TabulatesMore(specs[..i], table, v);
      table := table[v.host.text := Mount(v.container.text, Mode(v.mode).value)];
    }
    assert specs[..|specs|] == specs;
    if output.Missing? {
      return Some(table);
    }
    if output.NotText? {
      return None;
    }
    var ok := CheckMountAllowed(output.text, tmpDir, allowlist, resolve);
    if !ok {
      return None;
    }
    return Some(table[output.text := Mount("/output", "rw")]);
  }

  lemma NothingYet()
    ensures Tabulates([], map[])
  {
    assert forall host, k :: !LastFor([], host, k);
  }
}
