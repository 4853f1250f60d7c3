/** The artifact store spelled out: which files an operation touches, what a reader gets,
    and where a session id leads. */
module BlobFacts {
  import opened Lexical
  import opened Wrappers
  import opened BlobStore

  /** Storing writes the file, and its side file when there is metadata; nothing else. */
  lemma StoreTouches(files: Files, path: string, content: File, metadata: Metadata, q: string)
    ensures var t := Stored(files, path, content, metadata);
            && (q == path ==> q in t && t[q] == content)
            && (q == path + ".meta.json" && metadata != map[] ==> q in t && t[q] == Side(metadata))
            && (q != path && (q != path + ".meta.json" || metadata == map[]) ==>
                  (q in t <==> q in files) && (q in files ==> t[q] == files[q]))
  {
  }

  /** Deleting an existing file takes its side file along; nothing else. */
  lemma DeleteTouches(files: Files, path: string, q: string)
    ensures var t := Deleted(files, path);
            && (q in t <==> q in files && !(path in files && (q == path || q == path + ".meta.json")))
            && (q in t ==> t[q] == files[q])
  {
  }

  /** The character is not a line feed behind a carriage return. */
  predicate Kept(s: string, p: nat) {
    p < |s| && !(p > 0 && s[p - 1] == '\r' && s[p] == '\n')
  }

  /** How text is read: each carriage return becomes a line feed and swallows a line feed
      behind it; all other characters stay. `at` says where the characters come from. */
  lemma {:induction false} NewlinesAre(s: string) returns (at: seq<nat>)
    ensures |at| == |UniversalNewlines(s)|
    ensures forall k :: 0 <= k < |at| ==>
              at[k] < |s| && UniversalNewlines(s)[k] == if s[at[k]] == '\r' then '\n' else s[at[k]]
    ensures forall i, k :: 0 <= i < k < |at| ==> at[i] < at[k]
    ensures forall p: nat :: p in at <==> Kept(s, p)
    decreases |s|
  {
    at := [];
    if |s| > 0 {
      var n := if s[0] == '\r' && |s| > 1 && s[1] == '\n' then 2 else 1;
      var rest := NewlinesAre(s[n..]);
      at := [0] + seq(|rest|, k requires 0 <= k < |rest| => rest[k] + n);
      assert UniversalNewlines(s) == [if s[0] == '\r' then '\n' else s[0]] + UniversalNewlines(s[n..]);
      ShiftedPositions(s, n, rest, at);
    }
  }

  lemma ShiftedPositions(s: string, n: nat, rest: seq<nat>, at: seq<nat>)
    requires 1 <= n <= 2 && n <= |s| && (n == 2 <==> s[0] == '\r' && |s| > 1 && s[1] == '\n')
    requires at == [0] + seq(|rest|, k requires 0 <= k < |rest| => rest[k] + n)
    requires forall p: nat :: p in rest <==> Kept(s[n..], p)
    ensures forall p: nat :: p in at <==> Kept(s, p)
  {
    forall p: nat ensures p in at <==> Kept(s, p) {
      if p >= n {
        assert Kept(s, p) <==> Kept(s[n..], p - n);
        if p in at {
          var k :| 0 <= k < |at| && at[k] == p;
          assert rest[k - 1] in rest;
        }
        if p - n in rest {
          var k :| 0 <= k < |rest| && rest[k] == p - n;
          assert at[k + 1] == p;
        }
      } else if p > 0 {
        assert forall k :: 0 < k < |at| ==> at[k] >= n;
      } else {
        assert at[0] == 0;
      }
    }
  }

  /** What a reader gets: bytes as they are, text with its line endings read, the type of
      the name's ending, and the side file's metadata. */
  lemma RetrieveSays(files: Files, path: string)
    ensures Retrieved(files, path).None? <==> path !in files
    ensures path in files ==>
              var a := Retrieved(files, path).value;
              && (files[path].Text? ==> a.content == Text(UniversalNewlines(files[path].text)))
              && (!files[path].Text? ==> a.content == files[path])
              && (Ends(path, ".mmd") ==> a.contentType == "text/vnd.mermaid")
              && (Ends(path, ".json") ==> a.contentType == "application/json")
              && (!Ends(path, ".mmd") && !Ends(path, ".json") ==> a.contentType == "text/markdown")
              && (path + ".meta.json" in files && files[path + ".meta.json"].Side? ==>
                    a.metadata == files[path + ".meta.json"].metadata)
              && (!(path + ".meta.json" in files && files[path + ".meta.json"].Side?) ==> a.metadata == map[])
  {
    hide UniversalNewlines;
    if EndsWith(path, ".mmd") {
      assert path == path[..|path| - 4] + ".mmd";
    }
    if EndsWith(path, ".json") {
      assert path == path[..|path| - 5] + ".json";
    }
    if Ends(path, ".mmd") {
      assert path[|path| - 4..] == ".mmd";
      assert path[|path| - 1] == 'd';
    }
    if Ends(path, ".json") {
      assert path[|path| - 5..] == ".json";
      assert path[|path| - 1] == 'n';
    }
  }

  /** The path is something followed by the ending. */
  ghost predicate Ends(path: string, end: string) {
    exists start :: path == start + end
  }

  /** A session's own directory. */
  lemma OwnDirectoryIs(base: seq<string>, id: string)
    requires IsProper(id)
    ensures Joined(SessionTarget(base, id)) == Joined(base) + "specs/" + id + "/"
  {
    TargetOfProper(base, id);
    hide SessionTarget, Parts, Resolve;
    JoinedConcat(base, [SPECS, id]);
    assert [SPECS, id][1..] == [id] && [id][1..] == [];
    assert Joined([id]) == id + "/" + "";
    assert id + "/" + "" == id + "/" && SPECS + "/" == "specs/";
    assert Joined([SPECS, id]) == SPECS + "/" + Joined([id]);
  }

  /** A slash separates the components of a path. */
  lemma {:induction false} PartsConcat(a: string, b: string)
    ensures Parts(a + "/" + b) == Parts(a) + Parts(b)
    decreases |a|
  {
    var w := a + "/" + b;
    if |a| == 0 {
      assert w[0] == '/' && w[1..] == b;
    } else {
      assert w[0] == a[0] && w[1..] == a[1..] + "/" + b;
      PartsConcat(a[1..], b);
    }
  }

  /** Each further component leads on: none or "." stays, ".." goes up, a name goes down. */
  lemma {:induction false} ResolveOneMore(at: seq<string>, parts: seq<string>, part: string)
    ensures var before := Resolve(at, parts);
            Resolve(at, parts + [part])
            == if part == "" || part == "." then before
               else if part == ".." then (if before == [] then [] else before[..|before| - 1])
               else before + [part]
    decreases |parts|
  {
    if |parts| == 0 {
      assert parts + [part] == [part] && [part][1..] == [];
    } else {
      assert (parts + [part])[0] == parts[0] && (parts + [part])[1..] == parts[1..] + [part];
      if parts[0] == "" || parts[0] == "." {
        ResolveOneMore(at, parts[1..], part);
      } else if parts[0] == ".." {
        ResolveOneMore(if |at| == 0 then at else at[..|at| - 1], parts[1..], part);
      } else {
        ResolveOneMore(at + [parts[0]], parts[1..], part);
      }
    }
  }

  /** Deleting a session leaves exactly the files whose path does not start with the
      directory its id leads to. */
  lemma SessionDeletionLeaves(files: Files, directory: string, q: string)
    ensures q in WithoutDirectory(files, directory)
            <==> q in files && !exists rest :: q == directory + rest
    ensures q in WithoutDirectory(files, directory) ==> WithoutDirectory(files, directory)[q] == files[q]
  {
    if Under(directory, q) {
      assert q == directory + q[|directory|..];
    }
    if rest :| q == directory + rest {
      assert q[..|directory|] == directory;
    }
  }

  /** A name's suffix: from its last dot, unless that starts or ends the name. */
  lemma SuffixIs(directory: string, stem: string, ext: string)
    requires directory == "" || directory[|directory| - 1] == '/'
    requires '/' !in stem && '/' !in ext && '.' !in ext
    ensures Suffix(directory + (stem + "." + ext)) == if stem == "" || ext == "" then "" else "." + ext
    ensures Suffix(directory + ext) == ""
  {
    hide Suffix, LastIndex;
    assert '/' !in stem + "." + ext;
    SuffixOfName(directory, stem + "." + ext);
    SuffixOfName(directory, ext);
    DotOf(stem, ext);
    assert LastIndex(ext, '.') == -1;
  }

  lemma DotOf(stem: string, ext: string)
    requires '.' !in ext
    ensures var name := stem + "." + ext; LastIndex(name, '.') == |stem| && name[|stem|..] == "." + ext
  {
    hide LastIndex;
    var name := stem + "." + ext;
    assert name[|stem|] == '.' && forall k :: |stem| < k < |name| ==> name[k] == ext[k - |stem| - 1];
  }

  lemma SuffixOfName(directory: string, name: string)
    requires directory == "" || directory[|directory| - 1] == '/'
    requires '/' !in name
    ensures Suffix(directory + name)
            == var dot := LastIndex(name, '.'); if 0 < dot < |name| - 1 then name[dot..] else ""
  {
    hide LastIndex;
    NameStarts(directory, name);
  }

  lemma NameStarts(directory: string, name: string)
    requires directory == "" || directory[|directory| - 1] == '/'
    requires '/' !in name
    ensures var path := directory + name; LastIndex(path, '/') == |directory| - 1 && path[|directory|..] == name
  {
    hide LastIndex;
    var path := directory + name;
    assert forall k :: |directory| <= k < |path| ==> path[k] == name[k - |directory|];
    assert |directory| > 0 ==> path[|directory| - 1] == '/';
  }

  /** The text holds ".." as a whole component. */
  ghost predicate GoesUp(id: string) {
    exists a, b :: UpBetween(id, a, b)
  }

  predicate UpBetween(id: string, a: string, b: string) {
    id == a + ".." + b && (a == "" || a[|a| - 1] == '/') && (b == "" || b[0] == '/')
  }

  /** Each component stands in the text between its ends or slashes. */
  lemma {:induction false} PartStands(s: string, k: nat) returns (a: string, b: string)
    requires k < |Parts(s)|
    ensures s == a + Parts(s)[k] + b && (a == "" || a[|a| - 1] == '/') && (b == "" || b[0] == '/')
    ensures k == 0 <==> a == ""
    decreases |s|
  {
    if |s| == 0 {
      a, b := "", "";
    } else if s[0] == '/' {
      if k == 0 {
        a, b := "", s;
      } else {
        a, b := PartStands(s[1..], k - 1);
        a := "/" + a;
      }
    } else if k == 0 {
      a, b := PartStands(s[1..], 0);
      assert s == [s[0]] + s[1..];
    } else {
      a, b := PartStands(s[1..], k);
      a := [s[0]] + a;
      assert s == [s[0]] + s[1..];
    }
  }

  /** A session deletion finds nothing when a directory on the way up does not exist. */
  lemma MissesExactlyWhen(id: string, reached: bool)
    ensures Misses(id, reached) <==> !reached && GoesUp(id)
  {
    if ".." in Parts(id) {
      HasUp(id);
    }
    if GoesUp(id) {
      var a, b :| UpBetween(id, a, b);
      UpIsAPart(a, b);
      hide Parts;
    }
  }

  lemma HasUp(id: string)
    requires ".." in Parts(id)
    ensures GoesUp(id)
  {
    hide Parts;
    var k :| 0 <= k < |Parts(id)| && Parts(id)[k] == "..";
    var a, b := PartStands(id, k);
    assert UpBetween(id, a, b);
  }

  lemma UpIsAPart(a: string, b: string)
    requires (a == "" || a[|a| - 1] == '/') && (b == "" || b[0] == '/')
    ensures ".." in Parts(a + ".." + b)
  {
    hide Parts;
    var tail := ".." + b;
    UpFirst(b);
    if a == "" {
      assert a + ".." + b == tail;
    } else {
      var before := a[..|a| - 1];
      PartsConcat(before, tail);
      assert before + "/" + tail == a + ".." + b;
      assert (Parts(before) + Parts(tail))[|Parts(before)|] == "..";
    }
  }

  lemma UpFirst(b: string)
    requires b == "" || b[0] == '/'
    ensures |Parts(".." + b)| > 0 && Parts(".." + b)[0] == ".."
  {
    hide Parts;
    var up := "..";
    PartsOfComponent(up);
    if b == "" {
      assert up + b == up;
    } else {
      PartsConcat(up, b[1..]);
      assert up + "/" + b[1..] == up + b;
    }
  }
}
