/** Staging a task's input files: the name a blob gets on disk, where it is downloaded to and
    what is mounted. */
module Blobs {
  import opened Text
  import opened Mounts
  import opened Volumes

  predicate IsSeparator(c: char) {
    c == '/' || c == '\\'
  }

  /** What follows the last separator of either kind. */
  function LastSegment(s: string): string {
    if s == "" || IsSeparator(s[|s| - 1]) then "" else LastSegment(s[..|s| - 1]) + [s[|s| - 1]]
  }

  predicate Usable(base: string) {
    base != "" && base != "." && base != ".."
  }

  function Base(name: Option<string>): string {
    Strip(LastSegment(if name.Some? then name.value else ""))
  }

  function SafeBlobName(name: Option<string>, fallback: string): string {
    if Usable(Base(name)) then Base(name) else fallback
  }

  // ---- the name is a fixed point ---------------------------------------------------------------

  ghost predicate NoSeparator(s: string) {
    forall i :: 0 <= i < |s| ==> !IsSeparator(s[i])
  }

  lemma PartHasNone(a: string, b: string, c: string)
    requires NoSeparator(a + b + c)
    ensures NoSeparator(b)
  {
    hide IsSeparator;
    forall i | 0 <= i < |b| ensures !IsSeparator(b[i]) {
      assert (a + b + c)[|a| + i] == b[i];
    }
  }

  lemma {:induction false} LastSegmentSplits(s: string) returns (head: string)
    ensures s == head + LastSegment(s) && NoSeparator(LastSegment(s))
    ensures head != "" ==> IsSeparator(head[|head| - 1])
  {
    if s == "" || IsSeparator(s[|s| - 1]) {
      head := s;
    } else {
      head := LastSegmentSplits(s[..|s| - 1]);
      assert s == s[..|s| - 1] + [s[|s| - 1]];
    }
  }

  lemma {:induction false} LastSegmentKeeps(s: string)
    requires NoSeparator(s)
    ensures LastSegment(s) == s
  {
    if s != "" {
      LastSegmentKeeps(s[..|s| - 1]);
      assert s == s[..|s| - 1] + [s[|s| - 1]];
    }
  }

  /** A usable name's safe form is the name's own text behind its last separator, less the
      whitespace around it: nothing else is cut and nothing is added. */
  lemma SafeNameIsTail(name: string, fallback: string) returns (head: string, left: string, right: string)
    requires Usable(Base(Some(name)))
    ensures var safe := SafeBlobName(Some(name), fallback);
      name == head + (left + safe + right) && Stripped(safe)
      && '/' !in left + safe + right && '\\' !in left + safe + right
    ensures head != "" ==> head[|head| - 1] == '/' || head[|head| - 1] == '\\'
    ensures AllSpace(left) && AllSpace(right)
  {
    head := LastSegmentSplits(name);
    assert '/' !in LastSegment(name) && '\\' !in LastSegment(name);
    assert head != "" ==> head[|head| - 1] == '/' || head[|head| - 1] == '\\';
    left, right := StripExactly(LastSegment(name));
    hide Strip, LastSegment, AllSpace, NoSeparator, IsSeparator, Stripped;
  }

  lemma BaseFacts(name: Option<string>)
    ensures NoSeparator(Base(name)) && Base(Some(Base(name))) == Base(name)
  {
    var text := if name.Some? then name.value else "";
    var head := LastSegmentSplits(text);
    var left, right := StripExactly(LastSegment(text));
    hide Strip, AllSpace, IsSeparator, Stripped;
    PartHasNone(left, Base(name), right);
    LastSegmentKeeps(Base(name));
    hide NoSeparator, LastSegment;
    StripFixed(Base(name));
  }

  /** Taking the safe name of a safe name changes nothing, exactly if the name itself was
      usable or the fallback survives being reduced. */
  lemma SafeNameIsStable(name: Option<string>, fallback: string)
    ensures SafeBlobName(Some(SafeBlobName(name, fallback)), fallback) == SafeBlobName(name, fallback)
      <==> Usable(Base(name)) || Base(Some(fallback)) == fallback || !Usable(Base(Some(fallback)))
  {
    BaseFacts(name);
    hide Base;
  }

  // ---- download target and mount source ----------------------------------------------------------

  /** `PurePath`'s pieces, resolved: "." and empty pieces vanish, ".." goes up. */
  function Walk(at: Path, pieces: seq<string>): Path
    decreases |pieces|
  {
    if pieces == [] then at
    else
      var p := pieces[0];
      Walk(if p == "" || p == "." then at
           else if p == ".." then (if at == [] then at else at[..|at| - 1])
           else at + [p],
           pieces[1..])
  }

  function Pieces(s: string): (pieces: seq<string>)
    ensures pieces != []
  {
    if s == "" then [""]
    else
      var rest := Pieces(s[1..]);
      if s[0] == '/' then [""] + rest else [[s[0]] + rest[0]] + rest[1..]
  }

  /** `(dir / filename).resolve()` without links: an absolute file name starts over. */
  function Resolved(dir: Path, filename: string): Path {
    Walk(if filename != "" && filename[0] == '/' then [] else dir, Pieces(filename))
  }

  datatype InputBlob = InputBlob(blobId: string, filename: Option<string>)

  /** `_run_assignment` first stores every name's safe form back into its spec. */
  function Normalised(blob: InputBlob): InputBlob {
    blob.(filename := Some(SafeBlobName(blob.filename, blob.blobId)))
  }

  /** The file name `download_all` downloads the normalised spec to. */
  function DownloadName(blob: InputBlob): string {
    SafeBlobName(Normalised(blob).filename, blob.blobId)
  }

  /** The file name `_run_assignment` mounts. */
  function MountName(blob: InputBlob): string {
    if Normalised(blob).filename.value == "" then blob.blobId else Normalised(blob).filename.value
  }

  lemma {:induction false} OnePiece(s: string)
    requires '/' !in s
    ensures Pieces(s) == [s]
  {
    if s != "" {
      OnePiece(s[1..]);
      assert s == [s[0]] + s[1..];
    }
  }

  /** A usable name stays directly inside its directory. */
  lemma UsableStaysInside(dir: Path, name: Option<string>)
    requires Usable(Base(name))
    ensures '/' !in Base(name) && Resolved(dir, Base(name)) == dir + [Base(name)]
  {
    BaseFacts(name);
    var base := Base(name);
    hide Base;
    OnePiece(base);
    assert Walk(dir + [base], []) == dir + [base];
  }

  /** The directory part of a file name, its last slash included. */
  function Directory(name: string): (d: string)
    ensures |d| <= |name| && name[..|d|] == d && '/' !in name[|d|..]
    ensures d == "" || d[|d| - 1] == '/'
  {
    if name == "" || name[|name| - 1] == '/' then name else Directory(name[..|name| - 1])
  }

  /** A first character joins the first piece, or ends an empty one. */
  function Joined(c: char, pieces: seq<string>): seq<string>
    requires pieces != []
  {
    if c == '/' then [""] + pieces else [[c] + pieces[0]] + pieces[1..]
  }

  lemma PiecesFirst(s: string)
    requires s != ""
    ensures Pieces(s[1..]) != [] && Pieces(s) == Joined(s[0], Pieces(s[1..]))
  {
    SomePiece(s[1..]);
  }

  lemma JoinedLast(c: char, p: seq<string>, q: string)
    requires |p| >= 1 && (c == '/' || |p| >= 2)
    ensures var t := Joined(c, p);
      |t| >= 1 && t[|t| - 1] == p[|p| - 1] && t[..|t| - 1] + [q] == Joined(c, p[..|p| - 1] + [q])
  {
    var n := |p| - 1;
    if c == '/' {
      assert ([""] + p)[..n + 1] == [""] + p[..n];
    } else {
      assert (p[..n] + [q])[1..] == p[1..n] + [q];
      assert ([[c] + p[0]] + p[1..])[..n] == [[c] + p[0]] + p[1..n];
    }
  }

  lemma {:induction false} PiecesSplit(d: string, q: string)
    requires (d == "" || d[|d| - 1] == '/') && '/' !in q
    ensures Pieces(d) != [] && Pieces(d)[|Pieces(d)| - 1] == ""
    ensures Pieces(d + q) == Pieces(d)[..|Pieces(d)| - 1] + [q]
  {
    if d == "" {
      OnePiece(q);
      assert d + q == q && [""][..0] + [q] == [q];
    } else {
      hide Pieces, Joined;
      PiecesFirst(d);
      PiecesFirst(d + q);
      assert (d + q)[1..] == d[1..] + q && (d + q)[0] == d[0];
      PiecesSplit(d[1..], q);
      if d[0] != '/' {
        OnlySlash(d[1..]);
      }
      JoinedLast(d[0], Pieces(d[1..]), q);
    }
  }

  /** A directory text of several characters has at least two pieces. */
  lemma OnlySlash(d: string)
    requires d != "" && d[|d| - 1] == '/'
    ensures |Pieces(d)| >= 2
  {
    PiecesCount(d, |d| - 1);
  }

  lemma {:induction false} PiecesCount(d: string, k: nat)
    requires k < |d| && d[k] == '/'
    ensures |Pieces(d)| >= 2
  {
    if k > 0 {
      PiecesCount(d[1..], k - 1);
    } else {
      SomePiece(d[1..]);
    }
  }

  lemma {:induction false} SomePiece(s: string)
    ensures |Pieces(s)| >= 1
  {
    if s != "" {
      SomePiece(s[1..]);
    }
  }

  lemma {:induction false} WalkOn(at: Path, a: seq<string>, q: string)
    ensures Walk(at, a + [q]) == Walk(Walk(at, a), [q])
    decreases |a|
  {
    if a == [] {
      assert a + [q] == [q];
    } else {
      assert (a + [q])[1..] == a[1..] + [q];
      var p := a[0];
      WalkOn(if p == "" || p == "." then at
             else if p == ".." then (if at == [] then at else at[..|at| - 1])
             else at + [p],
             a[1..], q);
    }
  }

  lemma WalkOne(at: Path, q: string)
    ensures Walk(at, [""]) == at
    ensures Usable(q) ==> Walk(at, [q]) == at + [q]
  {
    assert [q][1..] == [] && [""][1..] == [];
  }

  /** A file name resolves to its last piece inside whatever its directory part resolves to. */
  lemma ResolvedSplits(dir: Path, d: string, q: string)
    requires (d == "" || d[|d| - 1] == '/') && '/' !in q && Usable(q)
    ensures Resolved(dir, d + q) == Resolved(dir, d) + [q]
  {
    var start := if d != "" && d[0] == '/' then [] else dir;
    PiecesSplit(d, q);
    var init := Pieces(d)[..|Pieces(d)| - 1];
    assert Pieces(d) == init + [""];
    WalkOn(start, init, q);
    WalkOn(start, init, "");
    WalkOne(Walk(start, init), q);
    assert d + q != "" && ((d + q)[0] == '/' <==> d != "" && d[0] == '/');
    hide Walk, Pieces;
  }

  /** Behind the directory part of a usable name stands a usable piece. */
  lemma LastPieceUsable(name: string)
    requires Usable(Base(Some(name)))
    ensures Usable(name[|Directory(name)|..])
  {
    var d := Directory(name);
    var q := name[|d|..];
    SegmentOfPiece(d, q);
    assert d + q == name;
    if !Usable(q) {
      SpecialPiece(q);
    }
    hide Strip, LastSegment;
  }

  lemma SpecialPiece(q: string)
    requires !Usable(q)
    ensures Strip(LastSegment(q)) == q
  {
    assert NoSeparator(q) && Stripped(q);
    hide Strip, LastSegment, NoSeparator, Stripped;
    LastSegmentKeeps(q);
    StripFixed(q);
  }

  lemma {:induction false} SegmentOfPiece(d: string, q: string)
    requires d == "" || d[|d| - 1] == '/'
    ensures LastSegment(d + q) == LastSegment(q)
  {
    if q == "" {
      assert d + q == d;
    } else {
      assert (d + q)[..|d + q| - 1] == d + q[..|q| - 1];
      SegmentOfPiece(d, q[..|q| - 1]);
    }
  }

  /** The blob's id, taken as a file name, leads back into `dir` and there to its own base. */
  predicate LeadsBack(dir: Path, id: string) {
    id[|Directory(id)|..] == Base(Some(id)) && Resolved(dir, Directory(id)) == dir
  }

  /** A blob is downloaded to the very file that is mounted, exactly if its own name was
      usable, or its id cannot be reduced to a name, or the id as a path means the same file
      as the name it is reduced to. */
  lemma MountedIsDownloaded(blob: InputBlob, dir: Path)
    ensures Resolved(dir, DownloadName(blob)) == Resolved(dir, MountName(blob))
      <==> Usable(Base(blob.filename)) || !Usable(Base(Some(blob.blobId))) || LeadsBack(dir, blob.blobId)
  {
    BaseFacts(blob.filename);
    var id := blob.blobId;
    if !Usable(Base(blob.filename)) && Usable(Base(Some(id))) {
      var d := Directory(id);
      var q := id[|d|..];
      LastPieceUsable(id);
      ResolvedSplits(dir, d, q);
      UsableStaysInside(dir, Some(id));
      hide Base, Resolved, Directory;
      assert d + q == id;
      assert DownloadName(blob) == Base(Some(id)) && MountName(blob) == id;
      TailsAgree(Resolved(dir, d), q, dir, Base(Some(id)));
    } else {
      hide Base, Resolved;
    }
  }

  lemma TailsAgree(a: Path, x: string, b: Path, y: string)
    ensures a + [x] == b + [y] <==> a == b && x == y
  {
    if a + [x] == b + [y] {
      assert a == (a + [x])[..|a|] && b == (b + [y])[..|b|];
      assert x == (a + [x])[|a|] && y == (b + [y])[|b|];
    }
  }

  /** Where a blob is downloaded to. */
  function Destination(dir: Path, blob: InputBlob): Path {
    Resolved(dir, SafeBlobName(blob.filename, blob.blobId))
  }

  /** The files after these downloads: the id of the blob whose bytes each holds. */
  function Files(dir: Path, blobs: seq<InputBlob>): map<Path, string> {
    if blobs == [] then map[]
    else Files(dir, blobs[..|blobs| - 1])[Destination(dir, blobs[|blobs| - 1]) := blobs[|blobs| - 1].blobId]
  }

  /** `download_all`: the destinations in order, or a refusal at the first one outside `dir`
      or the first download that fails. */
  method DownloadAll(blobs: seq<InputBlob>, dir: Path, succeeds: InputBlob -> bool)
    returns (r: Option<seq<string>>, files: map<Path, string>)
    ensures r.Some? <==> forall k :: 0 <= k < |blobs| ==> Inside(dir, blobs[k]) && succeeds(blobs[k])
    ensures r.Some? ==> |r.value| == |blobs| && files == Files(dir, blobs)
    ensures r.Some? ==> forall k :: 0 <= k < |blobs| ==> r.value[k] == SafeBlobName(blobs[k].filename, blobs[k].blobId)
    ensures forall p :: p in files ==> dir <= p
  {
    hide SafeBlobName, Resolved;
    var names: seq<string> := [];
    files := map[];
    for i := 0 to |blobs|
      invariant files == Files(dir, blobs[..i]) && |names| == i
      invariant forall p :: p in files ==> dir <= p
      invariant forall k :: 0 <= k < i ==> Inside(dir, blobs[k]) && succeeds(blobs[k])
      invariant forall k :: 0 <= k < i ==> names[k] == SafeBlobName(blobs[k].filename, blobs[k].blobId)
    {
      assert blobs[..i + 1][..i] == blobs[..i];
      var filename := SafeBlobName(blobs[i].filename, blobs[i].blobId);
      if !Inside(dir, blobs[i]) || !succeeds(blobs[i]) {
        return None, files;
      }
      files := files[Resolved(dir, filename) := blobs[i].blobId];
      names := names + [filename];
    }
    assert blobs[..|blobs|] == blobs;
    return Some(names), files;
  }

  /** Whichever blob was downloaded last to a place is what the place holds. */
  lemma {:induction false} LastDownloadStands(dir: Path, blobs: seq<InputBlob>, k: nat) returns (j: nat)
    requires k < |blobs|
    ensures k <= j < |blobs| && Destination(dir, blobs[j]) == Destination(dir, blobs[k])
    ensures Destination(dir, blobs[k]) in Files(dir, blobs)
    ensures Files(dir, blobs)[Destination(dir, blobs[k])] == blobs[j].blobId
  {
    hide Destination;
    j := |blobs| - 1;
    if Destination(dir, blobs[j]) != Destination(dir, blobs[k]) {
      j := LastDownloadStands(dir, blobs[..j], k);
    }
  }

  /** Blob `k` is still what its destination holds. */
  ghost predicate KeepsContent(dir: Path, blobs: seq<InputBlob>, k: nat)
    requires k < |blobs|
  {
    var p := Destination(dir, blobs[k]);
    p in Files(dir, blobs) && Files(dir, blobs)[p] == blobs[k].blobId
  }

  /** Two different blobs are downloaded to one place. */
  predicate Clash(dir: Path, a: InputBlob, b: InputBlob) {
    Destination(dir, a) == Destination(dir, b) && a.blobId != b.blobId
  }

  lemma UnclashedKeeps(dir: Path, blobs: seq<InputBlob>, k: nat)
    requires k < |blobs| && forall j :: 0 <= j < |blobs| ==> !Clash(dir, blobs[k], blobs[j])
    ensures KeepsContent(dir, blobs, k)
  {
    var j := LastDownloadStands(dir, blobs, k);
    hide Destination, Files;
    assert !Clash(dir, blobs[k], blobs[j]);
  }

  lemma ClashLoses(dir: Path, blobs: seq<InputBlob>, i: nat, j: nat)
    requires i < |blobs| && j < |blobs| && Clash(dir, blobs[i], blobs[j])
    ensures !KeepsContent(dir, blobs, i) || !KeepsContent(dir, blobs, j)
  {
    hide Destination, Files;
  }

  /** All inputs keep their own content exactly if no two different blobs go to one place;
      otherwise one stands in for both, in the download and in the mounts. */
  lemma InputsKeepContent(dir: Path, blobs: seq<InputBlob>)
    ensures (forall k :: 0 <= k < |blobs| ==> KeepsContent(dir, blobs, k))
      <==> forall i, j :: 0 <= i < |blobs| && 0 <= j < |blobs| ==> !Clash(dir, blobs[i], blobs[j])
  {
    hide KeepsContent, Clash;
    if forall i, j :: 0 <= i < |blobs| && 0 <= j < |blobs| ==> !Clash(dir, blobs[i], blobs[j]) {
      forall k | 0 <= k < |blobs| ensures KeepsContent(dir, blobs, k) {
        UnclashedKeeps(dir, blobs, k);
      }
    } else {
      var i, j :| 0 <= i < |blobs| && 0 <= j < |blobs| && Clash(dir, blobs[i], blobs[j]);
      ClashLoses(dir, blobs, i, j);
    }
  }

  /** With usable names two blobs go to one place exactly if their names reduce to the same. */
  lemma SamePlace(dir: Path, a: InputBlob, b: InputBlob)
    requires Usable(Base(a.filename)) && Usable(Base(b.filename))
    ensures Destination(dir, a) == Destination(dir, b) <==> Base(a.filename) == Base(b.filename)
  {
    UsableStaysInside(dir, a.filename);
    UsableStaysInside(dir, b.filename);
    hide Base, Resolved;
    TailsAgree(dir, Base(a.filename), dir, Base(b.filename));
  }

  /** The destination resolves to somewhere inside the directory. */
  predicate Inside(dir: Path, blob: InputBlob) {
    dir <= Destination(dir, blob)
  }

  /** That is the directory itself or anything below it. */
  lemma InsideExactly(dir: Path, blob: InputBlob)
    ensures Inside(dir, blob) <==>
      exists below :: Resolved(dir, SafeBlobName(blob.filename, blob.blobId)) == dir + below
  {
    var p := Destination(dir, blob);
    hide SafeBlobName, Resolved;
    if dir <= p {
      assert p == dir + p[|dir|..];
    }
  }

  /** With usable names every staged input is downloaded inside the staging directory, is
      mounted from there, and the mount policy lets it through, whatever the operator listed. */
  lemma StagedInputsMount(blob: InputBlob, dir: Path, host: string, tmpDir: string, allowlist: seq<string>,
                          resolve: string -> Path)
    requires Usable(Base(blob.filename))
    requires resolve(tmpDir) <= dir && |resolve(tmpDir)| < |dir| && STAGING_PREFIX <= dir[|resolve(tmpDir)|]
    requires resolve(host) == Resolved(dir, MountName(blob))
    ensures Inside(dir, Normalised(blob))
    ensures resolve(host) == Resolved(dir, DownloadName(blob)) == dir + [Base(blob.filename)]
    ensures Allowed(host, tmpDir, allowlist, resolve)
  {
    BaseFacts(blob.filename);
    UsableStaysInside(dir, blob.filename);
    hide Base, Resolved;
    assert DownloadName(blob) == Base(blob.filename);
  }
}
