/** The local artifact store: files by path, each with its metadata in a side file
    next to it, and the deletion of a whole session's files. A file's path is
    absolute, written without its first slash. */
module BlobStore {
  import opened Lexical
  import opened Wrappers

  const META := ".meta.json"

  type Metadata = map<string, string>

  /** What a file holds: the encoding of a text, bytes that are not the encoding of
      any text, or the metadata of the file beside it. */
  datatype File = Text(text: string) | Binary(bytes: seq<bv8>) | Side(metadata: Metadata)

  type Files = map<string, File>

  datatype Artifact = Artifact(content: File, contentType: string, metadata: Metadata)

  predicate EndsWith(s: string, end: string) {
    |s| >= |end| && s[|s| - |end|..] == end
  }

  function SideOf(path: string): string {
    path + META
  }

  predicate IsSide(path: string) {
    EndsWith(path, META)
  }

  function BaseOf(path: string): (b: string)
    requires IsSide(path)
    ensures SideOf(b) == path
  {
    path[..|path| - |META|]
  }

  lemma SideOfIsSide(path: string)
    ensures IsSide(SideOf(path)) && BaseOf(SideOf(path)) == path
  {
    assert SideOf(path)[|path|..] == META;
  }

  // ------------------------------------------------------------------ operations

  /** A side file is written only for non-empty metadata; an older one stays. */
  function Stored(files: Files, path: string, content: File, metadata: Metadata): Files {
    if |metadata| > 0 then files[path := content][SideOf(path) := Side(metadata)] else files[path := content]
  }

  function Deleted(files: Files, path: string): Files {
    if path in files then files - {path, SideOf(path)} else files
  }

  /** Reading as text turns every line ending into a line feed. */
  function UniversalNewlines(s: string): string
    decreases |s|
  {
    if |s| == 0 then ""
    else if s[0] != '\r' then [s[0]] + UniversalNewlines(s[1..])
    else if |s| > 1 && s[1] == '\n' then ['\n'] + UniversalNewlines(s[2..])
    else ['\n'] + UniversalNewlines(s[1..])
  }

  function ReadAsText(f: File): File {
    if f.Text? then Text(UniversalNewlines(f.text)) else f
  }

  function ContentType(path: string): string {
    if EndsWith(path, ".mmd") then "text/vnd.mermaid"
    else if EndsWith(path, ".json") then "application/json"
    else "text/markdown"
  }

  function MetadataOf(files: Files, path: string): Metadata {
    if SideOf(path) in files && files[SideOf(path)].Side? then files[SideOf(path)].metadata else map[]
  }

  function Retrieved(files: Files, path: string): Option<Artifact> {
    if path !in files then None
    else Some(Artifact(ReadAsText(files[path]), ContentType(path), MetadataOf(files, path)))
  }

  predicate Under(directory: string, path: string) {
    |path| >= |directory| && path[..|directory|] == directory
  }

  /** The components of a path, empty ones included. */
  function Parts(s: string): (parts: seq<string>)
    ensures forall k :: 0 <= k < |parts| ==> '/' !in parts[k]
    ensures |parts| > 0
    decreases |s|
  {
    if |s| == 0 then [""]
    else if s[0] == '/' then [""] + Parts(s[1..])
    else var rest := Parts(s[1..]); [[s[0]] + rest[0]] + rest[1..]
  }

  /** Where a path leads: empty and "." components stay, ".." goes up, also from the root. */
  function Resolve(at: seq<string>, parts: seq<string>): seq<string>
    decreases |parts|
  {
    if |parts| == 0 then at
    else if parts[0] == "" || parts[0] == "." then Resolve(at, parts[1..])
    else if parts[0] == ".." then Resolve(if |at| == 0 then at else at[..|at| - 1], parts[1..])
    else Resolve(at + [parts[0]], parts[1..])
  }

  /** The common start of all paths in a directory. */
  function Joined(components: seq<string>): string
    decreases |components|
  {
    if |components| == 0 then "" else components[0] + "/" + Joined(components[1..])
  }

  const SPECS := "specs"

  /** The directory a session id leads to, from the store's base directory. */
  function SessionTarget(base: seq<string>, id: string): seq<string> {
    Resolve(base + [SPECS], Parts(id))
  }

  /** Going up fails when a directory on the way does not exist. */
  predicate Misses(id: string, reached: bool) {
    ".." in Parts(id) && !reached
  }

  function WithoutDirectory(files: Files, directory: string): Files {
    map p | p in files && !Under(directory, p) :: files[p]
  }

  /** The suffix of a file's name: from its last dot, unless that starts or ends the name. */
  function LastIndex(s: string, c: char): int
    ensures -1 <= LastIndex(s, c) < |s|
    ensures LastIndex(s, c) >= 0 ==> s[LastIndex(s, c)] == c
    ensures forall k :: LastIndex(s, c) < k < |s| ==> s[k] != c
    decreases |s|
  {
    if |s| == 0 then -1
    else if s[|s| - 1] == c then |s| - 1
    else LastIndex(s[..|s| - 1], c)
  }

  function Suffix(path: string): string {
    var name := path[LastIndex(path, '/') + 1..];
    var dot := LastIndex(name, '.');
    if 0 < dot < |name| - 1 then name[dot..] else ""
  }

  /** The listing's filter. */
  predicate PassesFilter(path: string) {
    !EndsWith(Suffix(path), META)
  }

  lemma TailHasOneDot(name: string, k: nat)
    requires LastIndex(name, '.') >= 0 && 1 <= k < |name| - LastIndex(name, '.')
    ensures name[LastIndex(name, '.')..][k] != '.'
  {
  }

  lemma SuffixHasOneDot(path: string, k: nat)
    requires 1 <= k < |Suffix(path)|
    ensures Suffix(path)[k] != '.'
  {
    hide LastIndex;
    TailHasOneDot(path[LastIndex(path, '/') + 1..], k);
  }

  lemma MetaHasInnerDot(s: string)
    ensures EndsWith(s, META) ==> |s| >= |META| && s[|s| - 5] == '.'
  {
    if EndsWith(s, META) {
      assert s[|s| - |META|..][5] == s[|s| - 5];
    }
  }

  /** No path fails the filter, so side files are listed too. */
  lemma FilterPassesAll(path: string)
    ensures PassesFilter(path)
  {
    var suffix := Suffix(path);
    hide Suffix;
    MetaHasInnerDot(suffix);
    if |suffix| >= |META| {
      SuffixHasOneDot(path, |suffix| - 5);
    }
  }

  lemma NoneDistinct()
    ensures Distinct([])
  {
  }

  lemma OneMoreDistinct(all: seq<string>, p: string)
    requires Distinct(all) && p !in all
    ensures Distinct(all + [p]) && forall q :: q in all + [p] <==> q in all || q == p
  {
  }

  class LocalFilesystemBackend {
    const base: seq<string>
    var files: Files

    constructor (base: seq<string>)
      ensures this.base == base && files == map[]
    {
      this.base := base;
      files := map[];
    }

    method Store(path: string, content: File, metadata: Metadata)
      modifies this`files
      ensures files == Stored(old(files), path, content, metadata)
    {
      files := files[path := content];
      if |metadata| > 0 {
        files := files[SideOf(path) := Side(metadata)];
      }
    }

    method Retrieve(path: string) returns (r: Option<Artifact>)
      ensures r == Retrieved(files, path)
    {
      if path !in files {
        return None;
      }
      var metadata: Metadata := map[];
      var side := SideOf(path);
      if side in files && files[side].Side? {
        metadata := files[side].metadata;
      }
      r := Some(Artifact(ReadAsText(files[path]), ContentType(path), metadata));
    }

    method Delete(path: string) returns (existed: bool)
      modifies this`files
      ensures files == Deleted(old(files), path) && existed == (path in old(files))
    {
      if path !in files {
        return false;
      }
      files := files - {path};
      var side := SideOf(path);
      if side in files {
        files := files - {side};
      }
      assert files == Deleted(old(files), path);
      existed := true;
    }

    /** The file system gives the names in any order; the listing sorts them. */
    method ListDirectory(directory: string) returns (paths: seq<string>)
      ensures Sorted(paths) && forall p :: p in paths <==> p in files && Under(directory, p)
    {
      hide Under, PassesFilter, Sorted, Distinct, Sort;
      var all: seq<string> := [];
      var todo := files.Keys;
      NoneDistinct();
      while todo != {}
        invariant todo <= files.Keys && Distinct(all)
        invariant forall p :: p in all <==> p in files.Keys - todo && Under(directory, p)
        decreases |todo|
      {
        var p :| p in todo;
        FilterPassesAll(p);
        if Under(directory, p) && PassesFilter(p) {
          OneMoreDistinct(all, p);
          all := all + [p];
        }
        todo := todo - {p};
      }
      SortSorts(all);
      paths := Sort(all);
    }

    /** Every listed path is deleted in turn; a side file is gone by its turn when the
        file before it took it along, and is then not counted. */
    method DeleteSessionArtifacts(id: string, reached: bool) returns (count: nat)
      modifies this`files
      ensures var directory := Joined(SessionTarget(base, id));
              && files == (if Misses(id, reached) then old(files) else WithoutDirectory(old(files), directory))
              && count == if Misses(id, reached) then 0 else |CountedIn(old(files), directory)|
    {
      hide IsListing, Progressed, CountedAmong, CountedIn, Counted, Deleted, WithoutDirectory;
      if Misses(id, reached) {
        return 0;
      }
      var directory := Joined(SessionTarget(base, id));
      var paths := ListDirectory(directory);
      ListingStarts(files, directory, paths);
      count := 0;
      for i := 0 to |paths|
        invariant Progressed(old(files), files, directory, paths[..i])
        invariant count == |CountedAmong(old(files), directory, paths[..i])|
      {
        TurnTaken(old(files), files, directory, paths, i);
        var existed := Delete(paths[i]);
        if existed {
          count := count + 1;
        }
      }
      assert paths[..|paths|] == paths;
      ProgressedToEnd(old(files), files, directory, paths);
    }
  }

  // ------------------------------------------------------- what the loop removes

  /** The path is deleted, and counted, in its own turn. */
  predicate Counted(files: Files, directory: string, path: string)
    decreases |path|
  {
    path in files && Under(directory, path) && !(IsSide(path) && Counted(files, directory, BaseOf(path)))
  }

  ghost function CountedIn(files: Files, directory: string): set<string> {
    set p | p in files && Counted(files, directory, p)
  }

  ghost function CountedAmong(files: Files, directory: string, paths: seq<string>): set<string> {
    set p | p in paths && Counted(files, directory, p)
  }

  predicate Removed(before: Files, directory: string, gone: seq<string>, q: string) {
    q in gone || (IsSide(q) && BaseOf(q) in gone && Counted(before, directory, BaseOf(q)))
  }

  ghost predicate Progressed(before: Files, files: Files, directory: string, gone: seq<string>) {
    && (forall q :: q in files <==> q in before && !Removed(before, directory, gone, q))
    && (forall q :: q in files ==> files[q] == before[q])
  }

  ghost predicate IsListing(files: Files, directory: string, paths: seq<string>) {
    Sorted(paths) && forall p :: p in paths <==> p in files && Under(directory, p)
  }

  /** When a path's turn comes, it is still there exactly if it is counted: a side
      file sorts after the file it belongs to. */
  lemma PresentExactlyWhenCounted(before: Files, files: Files, directory: string, paths: seq<string>, i: nat)
    requires i < |paths| && IsListing(before, directory, paths) && Progressed(before, files, directory, paths[..i])
    ensures paths[i] in files <==> Counted(before, directory, paths[i])
  {
    var p := paths[i];
    assert p in paths;
    LessTotal(p, p);
    assert p !in paths[..i];
    if IsSide(p) && Counted(before, directory, BaseOf(p)) {
      var b := BaseOf(p);
      assert b in paths;
      var k :| 0 <= k < |paths| && paths[k] == b;
      PrefixIsLess(b, META);
      LessAsymmetric(b, p);
      assert k < i;
      assert paths[..i][k] == b;
    }
  }

  lemma DeleteProgresses(before: Files, files: Files, directory: string, paths: seq<string>, i: nat)
    requires i < |paths| && IsListing(before, directory, paths) && Progressed(before, files, directory, paths[..i])
    requires paths[i] in files <==> Counted(before, directory, paths[i])
    ensures Progressed(before, Deleted(files, paths[i]), directory, paths[..i + 1])
  {
    var p, after := paths[i], Deleted(files, paths[i]);
    assert paths[..i + 1] == paths[..i] + [p];
    SideOfIsSide(p);
    hide Counted;
    forall q ensures q in after <==> q in before && !Removed(before, directory, paths[..i + 1], q) {
      if p in files {
        assert q in after <==> q in files && q != p && q != SideOf(p);
      }
    }
  }

  lemma NextCounted(before: Files, directory: string, paths: seq<string>, i: nat)
    requires i < |paths| && IsListing(before, directory, paths)
    ensures CountedAmong(before, directory, paths[..i + 1])
         == CountedAmong(before, directory, paths[..i])
            + if Counted(before, directory, paths[i]) then {paths[i]} else {}
    ensures paths[i] !in CountedAmong(before, directory, paths[..i])
  {
    hide Counted;
    LessTotal(paths[i], paths[i]);
    assert paths[..i + 1] == paths[..i] + [paths[i]];
  }

  lemma ListingStarts(files: Files, directory: string, paths: seq<string>)
    requires Sorted(paths) && forall p :: p in paths <==> p in files && Under(directory, p)
    ensures IsListing(files, directory, paths) && Progressed(files, files, directory, paths[..0])
    ensures |CountedAmong(files, directory, paths[..0])| == 0
  {
    hide Counted;
    assert CountedAmong(files, directory, paths[..0]) == {};
  }

  /** One turn of the loop. */
  lemma TurnTaken(before: Files, files: Files, directory: string, paths: seq<string>, i: nat)
    requires i < |paths| && IsListing(before, directory, paths) && Progressed(before, files, directory, paths[..i])
    ensures Progressed(before, Deleted(files, paths[i]), directory, paths[..i + 1])
    ensures |CountedAmong(before, directory, paths[..i + 1])|
         == |CountedAmong(before, directory, paths[..i])| + if paths[i] in files then 1 else 0
  {
    hide IsListing, Progressed, CountedAmong, Counted, Deleted;
    PresentExactlyWhenCounted(before, files, directory, paths, i);
    DeleteProgresses(before, files, directory, paths, i);
    NextCounted(before, directory, paths, i);
  }

  lemma UnderBase(directory: string, q: string)
    requires IsSide(q) && Under(directory, BaseOf(q))
    ensures Under(directory, q)
  {
    assert q[..|directory|] == BaseOf(q)[..|directory|];
  }

  lemma ProgressedToEnd(before: Files, files: Files, directory: string, paths: seq<string>)
    requires IsListing(before, directory, paths) && Progressed(before, files, directory, paths)
    ensures files == WithoutDirectory(before, directory)
    ensures CountedAmong(before, directory, paths) == CountedIn(before, directory)
  {
    forall q ensures q in files <==> q in before && !Under(directory, q) {
      if IsSide(q) && BaseOf(q) in paths {
        UnderBase(directory, q);
      }
    }
  }

  // ------------------------------------------------------------------ every run

  datatype Op =
    | Store(path: string, content: File, metadata: Metadata)
    | Delete(path: string)
    | DeleteTree(directory: seq<string>)

  /** Artifacts are texts or bytes; a side file's name is not given to an artifact. */
  predicate IsArtifactStore(op: Op) {
    op.Store? ==> !op.content.Side? && !IsSide(op.path)
  }

  predicate OnlyArtifacts(ops: seq<Op>) {
    forall op :: op in ops ==> IsArtifactStore(op)
  }

  function Apply(files: Files, op: Op): Files {
    match op
    case Store(path, content, metadata) => Stored(files, path, content, metadata)
    case Delete(path) => Deleted(files, path)
    case DeleteTree(directory) => WithoutDirectory(files, Joined(directory))
  }

  function Run(ops: seq<Op>): Files
    decreases |ops|
  {
    if |ops| == 0 then map[] else Apply(Run(ops[..|ops| - 1]), ops[|ops| - 1])
  }

  /** A side file stands only beside its artifact, which is not itself a side file. */
  ghost predicate SidesBeside(files: Files) {
    && (forall p :: p in files && IsSide(p) ==> files[p].Side? && !IsSide(BaseOf(p)) && BaseOf(p) in files)
    && (forall p :: p in files && !IsSide(p) ==> !files[p].Side?)
  }

  lemma StoreKeepsSides(files: Files, path: string, content: File, metadata: Metadata)
    requires SidesBeside(files) && !content.Side? && !IsSide(path)
    ensures SidesBeside(Stored(files, path, content, metadata))
  {
    SideOfIsSide(path);
  }

  lemma DeleteKeepsSides(files: Files, path: string)
    requires SidesBeside(files)
    ensures SidesBeside(Deleted(files, path))
  {
    SideOfIsSide(path);
  }

  lemma MetaHasNoSlash(q: string, k: nat)
    requires IsSide(q) && |BaseOf(q)| <= k < |q|
    ensures q[k] != '/'
  {
    assert q[k] == META[k - |BaseOf(q)|];
  }

  /** The path of a directory ends in a slash, which a side file's suffix does not hold. */
  lemma SideUnderIsBesideUnder(directory: string, q: string)
    requires IsSide(q) && (|directory| == 0 || directory[|directory| - 1] == '/')
    ensures Under(directory, q) <==> Under(directory, BaseOf(q))
  {
    var b := BaseOf(q);
    if |directory| == 0 {
    } else if Under(directory, q) {
      var k := |directory| - 1;
      assert q[k] == directory[k];
      if k >= |b| {
        MetaHasNoSlash(q, k);
      }
      assert b[..|directory|] == q[..|directory|];
    } else if Under(directory, b) {
      UnderBase(directory, q);
    }
  }

  lemma {:induction false} JoinedEndsInSlash(directory: seq<string>)
    ensures |Joined(directory)| == 0 || Joined(directory)[|Joined(directory)| - 1] == '/'
    decreases |directory|
  {
    if |directory| > 0 {
      JoinedEndsInSlash(directory[1..]);
    }
  }

  lemma TreeDeleteKeepsSides(files: Files, directory: seq<string>)
    requires SidesBeside(files)
    ensures SidesBeside(WithoutDirectory(files, Joined(directory)))
  {
    JoinedEndsInSlash(directory);
    var after := WithoutDirectory(files, Joined(directory));
    forall p | p in after && IsSide(p) ensures BaseOf(p) in after {
      SideUnderIsBesideUnder(Joined(directory), p);
    }
  }

  /** Over every run, side files stand only beside their artifacts. */
  lemma {:induction false} RunKeepsSidesBeside(ops: seq<Op>)
    requires OnlyArtifacts(ops)
    ensures SidesBeside(Run(ops))
    decreases |ops|
  {
    if |ops| > 0 {
      RunKeepsSidesBeside(ops[..|ops| - 1]);
      var files, op := Run(ops[..|ops| - 1]), ops[|ops| - 1];
      hide SidesBeside;
      assert op in ops && IsArtifactStore(op);
      match op
      case Store(path, content, metadata) => StoreKeepsSides(files, path, content, metadata);
      case Delete(path) => DeleteKeepsSides(files, path);
      case DeleteTree(directory) => TreeDeleteKeepsSides(files, directory);
    } else {
      assert Run(ops) == map[];
    }
  }

  /** The run stores artifacts under these names only. */
  ghost predicate StoresOnly(ops: seq<Op>, names: set<string>) {
    forall i :: 0 <= i < |ops| && ops[i].Store? ==> !ops[i].content.Side? && ops[i].path in names
  }

  /** Every run over a set of names keeps side files beside their artifacts exactly
      when no name in the set is a side file's name. */
  lemma NoOrphansExactlyWhen(names: set<string>)
    ensures (forall ops :: StoresOnly(ops, names) ==> SidesBeside(Run(ops))) <==> forall p :: p in names ==> !IsSide(p)
  {
    if forall p :: p in names ==> !IsSide(p) {
      forall ops | StoresOnly(ops, names) ensures SidesBeside(Run(ops)) {
        RunKeepsSidesBeside(ops);
      }
    } else {
      var p :| p in names && IsSide(p);
      var ops := [Store(p, Text(""), map[])];
      assert ops[..0] == [] && Run([]) == map[];
      assert p in Run(ops) && !Run(ops)[p].Side?;
      assert StoresOnly(ops, names) && !SidesBeside(Run(ops));
    }
  }

  /** The count returned by deleting a session is the number of its artifacts,
      although their side files are listed and deleted in turn as well. */
  lemma CountIsArtifacts(files: Files, directory: seq<string>)
    requires SidesBeside(files)
    ensures CountedIn(files, Joined(directory)) == set p | p in files && Under(Joined(directory), p) && !IsSide(p)
  {
    JoinedEndsInSlash(directory);
    forall p | p in files ensures Counted(files, Joined(directory), p) <==> Under(Joined(directory), p) && !IsSide(p) {
      if IsSide(p) {
        SideUnderIsBesideUnder(Joined(directory), p);
      }
    }
  }

  // ------------------------------------------------------------- other sessions

  /** One component that a path keeps. */
  predicate IsProper(part: string) {
    '/' !in part && part != "" && part != "." && part != ".."
  }

  /** A file of a session. */
  function SessionFile(base: seq<string>, id: string, rest: string): string {
    Joined(base + [SPECS, id]) + rest
  }

  /** The id leads out of the sessions' directory and not above it. */
  predicate LeadsAway(base: seq<string>, id: string) {
    !(SessionTarget(base, id) <= base + [SPECS]) && !(base + [SPECS] <= SessionTarget(base, id))
  }

  function FirstComponent(s: string): string
    decreases |s|
  {
    if |s| == 0 || s[0] == '/' then "" else [s[0]] + FirstComponent(s[1..])
  }

  lemma {:induction false} FirstComponentIs(id: string, rest: string)
    requires '/' !in id
    ensures FirstComponent(id + "/" + rest) == id
    decreases |id|
  {
    if |id| > 0 {
      assert (id + "/" + rest)[1..] == id[1..] + "/" + rest;
      FirstComponentIs(id[1..], rest);
    }
  }

  lemma {:induction false} JoinedConcat(a: seq<string>, b: seq<string>)
    ensures Joined(a + b) == Joined(a) + Joined(b)
    decreases |a|
  {
    if |a| == 0 {
      assert a + b == b;
    } else {
      assert (a + b)[0] == a[0] && (a + b)[1..] == a[1..] + b;
      JoinedConcat(a[1..], b);
      var first := a[0] + "/";
      assert first + (Joined(a[1..]) + Joined(b)) == (first + Joined(a[1..])) + Joined(b);
    }
  }

  predicate Slashless(a: seq<string>) {
    forall k :: 0 <= k < |a| ==> '/' !in a[k]
  }

  lemma SameFirst(x: string, y: string, r: string, s: string)
    requires '/' !in x && '/' !in y && x + "/" + r == y + "/" + s
    ensures x == y && r == s
  {
    FirstComponentIs(x, r);
    FirstComponentIs(y, s);
    var p := x + "/";
    assert (p + r)[|p|..] == r && (p + s)[|p|..] == s;
  }

  lemma JoinedUnfold(a: seq<string>, tail: string)
    requires |a| > 0
    ensures Joined(a) + tail == a[0] + "/" + (Joined(a[1..]) + tail)
  {
    var first, more := a[0] + "/", Joined(a[1..]);
    assert Joined(a) == first + more;
    assert (first + more) + tail == first + (more + tail);
  }

  lemma StripFirst(a: seq<string>, b: seq<string>, rest: string)
    requires |a| > 0 && |b| > 0 && '/' !in a[0] && '/' !in b[0] && Under(Joined(a), Joined(b) + rest)
    ensures a[0] == b[0] && Under(Joined(a[1..]), Joined(b[1..]) + rest)
  {
    hide Joined;
    var f := Joined(b) + rest;
    var tail := f[|Joined(a)|..];
    assert f == Joined(a) + tail;
    JoinedUnfold(a, tail);
    JoinedUnfold(b, rest);
    SameFirst(a[0], b[0], Joined(a[1..]) + tail, Joined(b[1..]) + rest);
    assert (Joined(a[1..]) + tail)[..|Joined(a[1..])|] == Joined(a[1..]);
  }

  /** A directory that contains a path starts or continues each directory of that path. */
  lemma {:induction false} ContainingIsRelated(a: seq<string>, b: seq<string>, rest: string)
    requires Slashless(a) && Slashless(b) && Under(Joined(a), Joined(b) + rest)
    ensures a <= b || b <= a
    decreases |a|
  {
    if |a| > 0 && |b| > 0 {
      hide Joined, Under;
      StripFirst(a, b, rest);
      ContainingIsRelated(a[1..], b[1..], rest);
      assert a == [a[0]] + a[1..] && b == [b[0]] + b[1..];
    }
  }

  lemma {:induction false} PartsOfComponent(id: string)
    requires '/' !in id
    ensures Parts(id) == [id]
    decreases |id|
  {
    if |id| > 0 {
      PartsOfComponent(id[1..]);
      assert [id[0]] + id[1..] == id;
    }
  }

  lemma TargetOfProper(base: seq<string>, id: string)
    requires IsProper(id)
    ensures SessionTarget(base, id) == base + [SPECS, id]
  {
    PartsOfComponent(id);
    assert [id][1..] == [];
    assert base + [SPECS] + [id] == base + [SPECS, id];
    assert Resolve(base + [SPECS] + [id], []) == base + [SPECS] + [id];
  }

  predicate AllProper(a: seq<string>) {
    forall k :: 0 <= k < |a| ==> IsProper(a[k])
  }

  lemma {:induction false} ResolveStaysProper(at: seq<string>, parts: seq<string>)
    requires AllProper(at) && Slashless(parts)
    ensures AllProper(Resolve(at, parts))
    decreases |parts|
  {
    if |parts| > 0 {
      if parts[0] == "" || parts[0] == "." {
        ResolveStaysProper(at, parts[1..]);
      } else if parts[0] == ".." {
        ResolveStaysProper(if |at| == 0 then at else at[..|at| - 1], parts[1..]);
      } else {
        ResolveStaysProper(at + [parts[0]], parts[1..]);
      }
    }
  }

  lemma ProperIsSlashless(a: seq<string>)
    requires AllProper(a)
    ensures Slashless(a)
  {
  }

  lemma OwnOrAwayIsApart(base: seq<string>, id: string, other: string, rest: string)
    requires AllProper(base) && (IsProper(id) || LeadsAway(base, id)) && IsProper(other) && other != id
    ensures !Under(Joined(SessionTarget(base, id)), SessionFile(base, other, rest))
  {
    var t := SessionTarget(base, id);
    if Under(Joined(t), SessionFile(base, other, rest)) {
      ResolveStaysProper(base + [SPECS], Parts(id));
      ProperIsSlashless(t);
      ContainingIsRelated(t, base + [SPECS, other], rest);
      NotRelated(base, id, other);
    }
  }

  lemma NotRelated(base: seq<string>, id: string, other: string)
    requires (IsProper(id) || LeadsAway(base, id)) && other != id
    ensures var t := SessionTarget(base, id); !(t <= base + [SPECS, other]) && !(base + [SPECS, other] <= t)
  {
    hide Resolve, Parts;
    var t, s, n := SessionTarget(base, id), base + [SPECS], |base| + 1;
    var o := base + [SPECS, other];
    assert o[..n] == s && o == s + [other];
    if IsProper(id) {
      TargetOfProper(base, id);
      assert t[n] == id && o[n] == other;
    } else {
      assert s <= o;
      assert o <= t ==> s <= t;
      assert t <= o && !(t <= s) ==> |t| == n + 1 && s <= t;
    }
  }

  lemma InsideIsTouched(base: seq<string>, id: string) returns (other: string, rest: string)
    requires AllProper(base) && !IsProper(id) && !LeadsAway(base, id)
    ensures IsProper(other) && other != id && Under(Joined(SessionTarget(base, id)), SessionFile(base, other, rest))
  {
    var t, s, n := SessionTarget(base, id), base + [SPECS], |base| + 1;
    if t <= s {
      other, rest := "a", "x";
      var o := base + [SPECS, other];
      assert o == t + o[|t|..];
      JoinedConcat(t, o[|t|..]);
      assert SessionFile(base, other, rest)[..|Joined(t)|] == Joined(t);
    } else {
      ResolveStaysProper(s, Parts(id));
      other, rest := t[n], Joined(t[n + 1..]);
      assert t == (base + [SPECS, other]) + t[n + 1..];
      JoinedConcat(base + [SPECS, other], t[n + 1..]);
      assert SessionFile(base, other, rest) == Joined(t);
    }
  }

  /** Deleting a session leaves every other session alone exactly when its id is a
      directory name of its own, or leads out of the sessions' directory and not
      above it. The empty id, for one, deletes all sessions. */
  lemma OthersUntouchedExactlyWhen(base: seq<string>, id: string)
    requires AllProper(base)
    ensures (forall other, rest :: IsProper(other) && other != id ==>
               !Under(Joined(SessionTarget(base, id)), SessionFile(base, other, rest)))
            <==> IsProper(id) || LeadsAway(base, id)
  {
    hide Joined, Under, LeadsAway;
    if IsProper(id) || LeadsAway(base, id) {
      forall other, rest | IsProper(other) && other != id
        ensures !Under(Joined(SessionTarget(base, id)), SessionFile(base, other, rest))
      {
        OwnOrAwayIsApart(base, id, other, rest);
      }
    } else {
      var other, rest := InsideIsTouched(base, id);
    }
  }

  // -------------------------------------------------- what retrieving gives back

  /** What a log of operations says about one path: the content stored last, and the
      last non-empty metadata, since the path was deleted. */
  function Latest(ops: seq<Op>, path: string): Option<(File, Metadata)>
    decreases |ops|
  {
    if |ops| == 0 then None else LatestAfter(ops[|ops| - 1], path, Latest(ops[..|ops| - 1], path))
  }

  function LatestAfter(op: Op, path: string, before: Option<(File, Metadata)>): Option<(File, Metadata)> {
    match op
    case Store(p, content, metadata) =>
      if p != path then before
      else if |metadata| > 0 || before.None? then Some((content, metadata))
      else Some((content, before.value.1))
    case Delete(p) =>
      if p == path then None
      else if p == SideOf(path) && before.Some? then Some((before.value.0, map[]))
      else before
    case DeleteTree(directory) => if Under(Joined(directory), path) then None else before
  }

  ghost predicate Agrees(files: Files, path: string, latest: Option<(File, Metadata)>) {
    && (path in files <==> latest.Some?)
    && (latest.Some? ==> files[path] == latest.value.0 && MetadataOf(files, path) == latest.value.1)
  }

  lemma NoSideWithout(files: Files, path: string)
    requires SidesBeside(files) && path !in files
    ensures SideOf(path) !in files
  {
    SideOfIsSide(path);
  }

  /** Operations that change neither the file nor its side file. */
  lemma UntouchedAgrees(files: Files, after: Files, path: string, latest: Option<(File, Metadata)>)
    requires Agrees(files, path, latest)
    requires forall q :: q == path || q == SideOf(path) ==>
               (q in files <==> q in after) && (q in files ==> files[q] == after[q])
    ensures Agrees(after, path, latest)
  {
  }

  lemma StoreAgrees(files: Files, path: string, op: Op, latest: Option<(File, Metadata)>)
    requires op.Store? && IsArtifactStore(op) && !IsSide(path)
    requires SidesBeside(files) && Agrees(files, path, latest)
    ensures Agrees(Apply(files, op), path, LatestAfter(op, path, latest))
  {
    SideOfIsSide(path);
    SideOfIsSide(op.path);
    if op.path != path {
      hide SidesBeside, Agrees;
      UntouchedAgrees(files, Apply(files, op), path, latest);
    } else {
      if path !in files {
        NoSideWithout(files, path);
      }
      hide SidesBeside;
      assert |op.metadata| == 0 ==> op.metadata == map[];
    }
  }

  lemma DeleteAgrees(files: Files, path: string, op: Op, latest: Option<(File, Metadata)>)
    requires op.Delete? && !IsSide(path) && Agrees(files, path, latest)
    ensures Agrees(Apply(files, op), path, LatestAfter(op, path, latest))
  {
    SideOfIsSide(path);
    SideOfIsSide(op.path);
    if op.path != path && op.path != SideOf(path) {
      assert SideOf(op.path) != path && SideOf(op.path) != SideOf(path);
      hide Agrees;
      UntouchedAgrees(files, Apply(files, op), path, latest);
    }
  }

  lemma DeleteTreeAgrees(files: Files, path: string, op: Op, latest: Option<(File, Metadata)>)
    requires op.DeleteTree? && !IsSide(path) && Agrees(files, path, latest)
    ensures Agrees(Apply(files, op), path, LatestAfter(op, path, latest))
  {
    SideOfIsSide(path);
    JoinedEndsInSlash(op.directory);
    SideUnderIsBesideUnder(Joined(op.directory), SideOf(path));
  }

  lemma {:induction false} RunAgrees(ops: seq<Op>, path: string)
    requires !IsSide(path) && OnlyArtifacts(ops)
    ensures Agrees(Run(ops), path, Latest(ops, path))
    decreases |ops|
  {
    if |ops| > 0 {
      var before := ops[..|ops| - 1];
      RunAgrees(before, path);
      RunKeepsSidesBeside(before);
      hide Agrees, SidesBeside, LatestAfter, Apply, IsSide;
      var op, latest := ops[|ops| - 1], Latest(before, path);
      match op
      case Store(_, _, _) => StoreAgrees(Run(before), path, op, latest);
      case Delete(_) => DeleteAgrees(Run(before), path, op, latest);
      case DeleteTree(_) => DeleteTreeAgrees(Run(before), path, op, latest);
    }
  }

  lemma {:induction false} NewlinesKeptExactlyWhen(s: string)
    ensures UniversalNewlines(s) == s <==> '\r' !in s
    ensures |UniversalNewlines(s)| <= |s| && '\r' !in UniversalNewlines(s)
    decreases |s|
  {
    if |s| > 0 {
      assert s == [s[0]] + s[1..];
      if s[0] != '\r' {
        NewlinesKeptExactlyWhen(s[1..]);
        assert UniversalNewlines(s)[1..] == UniversalNewlines(s[1..]);
      } else if |s| > 1 && s[1] == '\n' {
        NewlinesKeptExactlyWhen(s[2..]);
      } else {
        NewlinesKeptExactlyWhen(s[1..]);
      }
    }
  }

  /** What the log promises to a reader. */
  function Promised(latest: Option<(File, Metadata)>, path: string): Option<Artifact> {
    match latest
    case None => None
    case Some((content, metadata)) => Some(Artifact(ReadAsText(content), ContentType(path), metadata))
  }

  /** After any run, retrieving a path gives the content stored last, read as text,
      and the last non-empty metadata stored since the path was deleted. */
  lemma {:induction false} RetrieveGivesLatest(ops: seq<Op>, path: string)
    requires !IsSide(path) && OnlyArtifacts(ops)
    ensures Retrieved(Run(ops), path) == Promised(Latest(ops, path), path)
  {
    RunAgrees(ops, path);
  }
}
