/** The source tree every goal walks: fragment files are found by their suffix,
    and a fragment's component is the part of its file name before the first dot. */
module Fragments {
  import opened Documents

  /** An entry of the source tree. `listable` is false when `listFiles()` returns null. */
  datatype Node =
    | Dir(name: string, listable: bool, entries: seq<Node>)
    | File(name: string)

  /** The suffix that marks a fragment file. */
  const Suffix: string := ".i18n.json"

  predicate EndsWith(s: string, suffix: string)
  {
    |suffix| <= |s| && s[|s| - |suffix|..] == suffix
  }

  /** `file.getName().endsWith(".i18n.json")` */
  predicate IsFragmentName(name: string)
  {
    EndsWith(name, Suffix)
  }

  // ---------------------------------------------------------------------------
  // Component names

  /** The characters of `name` before its first dot, all of it when there is none. */
  function ComponentName(name: string): (c: string)
    ensures c <= name && '.' !in c
    ensures |c| < |name| ==> name[|c|] == '.'
  {
    if name == [] || name[0] == '.' then [] else [name[0]] + ComponentName(name[1..])
  }

  /** The pieces of `s` between its dots, empty pieces included (a regex split on `\.`
      before any piece is dropped). */
  function SplitOnDots(s: string): (parts: seq<string>)
    ensures |parts| >= 1
  {
    if s == [] then [[]]
    else
      var rest := SplitOnDots(s[1..]);
      if s[0] == '.' then [[]] + rest else [[s[0]] + rest[0]] + rest[1..]
  }

  /** Joins pieces with dots: the inverse of `SplitOnDots`. */
  function JoinWithDots(parts: seq<string>): string
    requires |parts| >= 1
  {
    if |parts| == 1 then parts[0] else parts[0] + "." + JoinWithDots(parts[1..])
  }

  /** Kotlin's `dropLastWhile { it.isEmpty() }`. */
  function DropTrailingEmpty(parts: seq<string>): (r: seq<string>)
    ensures r <= parts
    ensures r != [] ==> r[|r| - 1] != []
    ensures forall i :: |r| <= i < |parts| ==> parts[i] == []
  {
    if parts == [] then parts
    else if parts[|parts| - 1] == [] then DropTrailingEmpty(parts[..|parts| - 1])
    else parts
  }

  /** Java's `String.split("\\.")`: the input itself when it holds no dot,
      otherwise the pieces without the trailing empty ones. */
  function JavaSplitOnDots(s: string): (parts: seq<string>)
    ensures '.' !in s ==> parts == [s]
    ensures parts != [] ==> parts[0] == ComponentName(s)
    ensures forall i :: 0 <= i < |parts| ==> '.' !in parts[i]
  {
    SplitOnDotsPieces(s);
    if '.' !in s then [s] else DropTrailingEmpty(SplitOnDots(s))
  }

  /** Kotlin's `split("\\.".toRegex()).dropLastWhile { it.isEmpty() }`. */
  function KotlinSplitOnDots(s: string): (parts: seq<string>)
    ensures parts != [] ==> parts[0] == ComponentName(s) && parts[|parts| - 1] != []
    ensures forall i :: 0 <= i < |parts| ==> '.' !in parts[i]
  {
    SplitOnDotsPieces(s);
    DropTrailingEmpty(SplitOnDots(s))
  }

  /** The first piece of a split is the part before the first dot; no piece holds a dot. */
  lemma {:induction false} SplitOnDotsPieces(s: string)
    ensures SplitOnDots(s)[0] == ComponentName(s)
    ensures forall i :: 0 <= i < |SplitOnDots(s)| ==> '.' !in SplitOnDots(s)[i]
  {
    if s != [] {
      SplitOnDotsPieces(s[1..]);
    }
  }

  /** Splitting and joining again gives back the name. */
  lemma {:induction false} SplitJoinRoundTrip(s: string)
    ensures JoinWithDots(SplitOnDots(s)) == s
  {
    if s != [] {
      var rest := SplitOnDots(s[1..]);
      SplitJoinRoundTrip(s[1..]);
      if s[0] == '.' {
        assert SplitOnDots(s)[1..] == rest;
      } else {
        var parts := SplitOnDots(s);
        assert parts[1..] == rest[1..];
        if |rest| > 1 {
          assert JoinWithDots(rest) == rest[0] + "." + JoinWithDots(rest[1..]);
        }
      }
    }
  }

  /** The last piece of `a.b` is `b` when `b` holds no dot. */
  lemma {:induction false} LastPiece(a: string, b: string)
    requires '.' !in b
    ensures var parts := SplitOnDots(a + "." + b); |parts| >= 2 && parts[|parts| - 1] == b
  {
    if a == [] {
      assert a + "." + b == ['.'] + b;
      LastPieceNoDot(b);
      assert SplitOnDots(['.'] + b) == [[]] + SplitOnDots(b);
    } else {
      LastPiece(a[1..], b);
      assert (a + "." + b)[1..] == a[1..] + "." + b;
      assert (a + "." + b)[0] == a[0];
    }
  }

  lemma {:induction false} LastPieceNoDot(b: string)
    requires '.' !in b
    ensures SplitOnDots(b) == [b]
  {
    if b != [] {
      LastPieceNoDot(b[1..]);
      assert [b[0]] + b[1..] == b;
    }
  }

  /** For a fragment file name, Java's `split("\\.")[0]` and Kotlin's
      `split(...).dropLastWhile { it.isEmpty() }[0]` both exist and both are the part
      before the first dot: `a.b.i18n.json` belongs to component `a`. */
  lemma ComponentOfFragment(name: string)
    requires IsFragmentName(name)
    ensures |JavaSplitOnDots(name)| > 0 && JavaSplitOnDots(name)[0] == ComponentName(name)
    ensures |KotlinSplitOnDots(name)| > 0 && KotlinSplitOnDots(name)[0] == ComponentName(name)
  {
    var a := name[..|name| - 5];
    assert name == a + "." + "json" by {
      assert name[|name| - 5..] == ".json" by {
        assert name[|name| - |Suffix|..][5..] == ".json";
      }
      assert name == name[..|name| - 5] + name[|name| - 5..];
    }
    LastPiece(a, "json");
    assert '.' in name by { assert name[|name| - 5] == '.'; }
    var parts := SplitOnDots(name);
    assert DropTrailingEmpty(parts) == parts;
    SplitOnDotsPieces(name);
  }

  // ---------------------------------------------------------------------------
  // The walk

  /** One step of the recursive walk: a directory whose listing is null, or an entry
      with the fragment suffix that is about to be read. */
  datatype Visit =
    | Unlisted(dir: Path)
    | Fragment(file: Path, name: string, isFile: bool)

  /** What the walk does with directory `n` at `dir`: its entries' visits, or one
      `Unlisted` visit when `listFiles()` gives null (a missing root, a plain file, an
      unreadable directory). */
  function Listing(n: Node, dir: Path): seq<Visit>
    decreases n, 0
  {
    if n.Dir? && n.listable then Visits(n.entries, dir) else [Unlisted(dir)]
  }

  /** The visits of the entries `files` of directory `dir`, in listing order. */
  function Visits(files: seq<Node>, dir: Path): (vs: seq<Visit>)
    ensures forall i :: 0 <= i < |files| && IsFragmentName(files[i].name) ==>
              Fragment(dir + [files[i].name], files[i].name, files[i].File?) in vs
    decreases files
  {
    if files == [] then []
    else Visits(files[..|files| - 1], dir) + EntryVisits(files[|files| - 1], dir)
  }

  /** One entry: a directory is walked first; then, independently, an entry with the
      fragment suffix is read, even when it is a directory. */
  function EntryVisits(n: Node, dir: Path): (vs: seq<Visit>)
    ensures IsFragmentName(n.name) ==> |vs| > 0 && vs[|vs| - 1] == Fragment(dir + [n.name], n.name, n.File?)
    ensures n.Dir? && !n.listable ==> |vs| > 0 && vs[0] == Unlisted(dir + [n.name])
    ensures n.File? && !IsFragmentName(n.name) ==> vs == []
    decreases n, 1
  {
    (if n.Dir? then Listing(n, dir + [n.name]) else [])
    + (if IsFragmentName(n.name) then [Fragment(dir + [n.name], n.name, n.File?)] else [])
  }

  /** The walk from the source directory, which may not exist. */
  function RootVisits(src: Option<Node>): seq<Visit>
  {
    if src.Some? then Listing(src.value, []) else [Unlisted([])]
  }

  /** `readTree(file)`: the parsed content, or nothing when reading throws. */
  function ReadTree(disk: map<Path, Json>, file: Path, isFile: bool): (r: Option<Json>)
    ensures r.Some? <==> isFile && file in disk
    ensures r.Some? ==> r.value == disk[file]
  {
    if isFile && file in disk then Some(disk[file]) else None
  }

  /** `File.getName()`: the last element of a path. */
  function FileName(p: Path): (name: string)
    ensures forall dir: Path, n: string :: p == dir + [n] ==> name == n
  {
    if p == [] then "" else p[|p| - 1]
  }

  /** Entry `n` is listed at path `p` below the entries `files` of `dir`, reached through
      listable directories only. */
  predicate Lists(files: seq<Node>, dir: Path, p: Path, n: Node)
    decreases files
  {
    exists i :: 0 <= i < |files| &&
      ((dir + [files[i].name] == p && files[i] == n) ||
       (files[i].Dir? && files[i].listable &&
        Lists(files[i].entries, dir + [files[i].name], p, n)))
  }

  /** Every visit of one entry is a visit of the listing that holds it. */
  lemma {:induction false} EntryVisitsInVisits(files: seq<Node>, dir: Path, i: nat, x: Visit)
    requires i < |files| && x in EntryVisits(files[i], dir)
    ensures x in Visits(files, dir)
    decreases files
  {
    var last := |files| - 1;
    if i < last {
      var prefix := files[..last];
      assert prefix[i] == files[i];
      EntryVisitsInVisits(prefix, dir, i, x);
    }
  }

  /** Completeness of the walk: every entry with the fragment suffix that lies below
      listable directories is read, and every unlistable directory there is reported. */
  lemma {:induction false} WalkReachesEveryFragment(files: seq<Node>, dir: Path, p: Path, n: Node)
    requires Lists(files, dir, p, n)
    ensures IsFragmentName(n.name) ==> Fragment(p, n.name, n.File?) in Visits(files, dir)
    ensures n.Dir? && !n.listable ==> Unlisted(p) in Visits(files, dir)
    decreases files
  {
    var i :| 0 <= i < |files| &&
      ((dir + [files[i].name] == p && files[i] == n) ||
       (files[i].Dir? && files[i].listable &&
        Lists(files[i].entries, dir + [files[i].name], p, n)));
    var e := files[i];
    if dir + [e.name] == p && e == n {
      if IsFragmentName(n.name) {
        assert Fragment(p, n.name, n.File?) in EntryVisits(e, dir);
        EntryVisitsInVisits(files, dir, i, Fragment(p, n.name, n.File?));
      }
      if n.Dir? && !n.listable {
        assert Listing(e, p) == [Unlisted(p)];
        assert Unlisted(p) in EntryVisits(e, dir);
        EntryVisitsInVisits(files, dir, i, Unlisted(p));
      }
    } else {
      WalkReachesEveryFragment(e.entries, dir + [e.name], p, n);
      assert Listing(e, dir + [e.name]) == Visits(e.entries, dir + [e.name]);
      if IsFragmentName(n.name) {
        EntryVisitsInVisits(files, dir, i, Fragment(p, n.name, n.File?));
      }
      if n.Dir? && !n.listable {
        EntryVisitsInVisits(files, dir, i, Unlisted(p));
      }
    }
  }

  /** Soundness of the walk: only entries with the fragment suffix, lying below listable
      directories, are read, each under its own path. */
  lemma {:induction false} WalkReadsOnlyFragments(files: seq<Node>, dir: Path, x: Visit)
    requires x in Visits(files, dir) && x.Fragment?
    ensures IsFragmentName(x.name)
    ensures exists n :: Lists(files, dir, x.file, n) && n.name == x.name && n.File? == x.isFile
    decreases files
  {
    var last := |files| - 1;
    var prefix := files[..last];
    var e := files[last];
    if x in Visits(prefix, dir) {
      WalkReadsOnlyFragments(prefix, dir, x);
      var n :| Lists(prefix, dir, x.file, n) && n.name == x.name && n.File? == x.isFile;
      var i :| 0 <= i < |prefix| &&
        ((dir + [prefix[i].name] == x.file && prefix[i] == n) ||
         (prefix[i].Dir? && prefix[i].listable &&
          Lists(prefix[i].entries, dir + [prefix[i].name], x.file, n)));
      assert files[i] == prefix[i];
      assert Lists(files, dir, x.file, n);
    } else if e.Dir? && x in Listing(e, dir + [e.name]) {
      assert e.listable && x in Visits(e.entries, dir + [e.name]);
      WalkReadsOnlyFragments(e.entries, dir + [e.name], x);
      var n :| Lists(e.entries, dir + [e.name], x.file, n) && n.name == x.name && n.File? == x.isFile;
      assert Lists(files, dir, x.file, n);
    } else {
      assert x == Fragment(dir + [e.name], e.name, e.File?);
      assert Lists(files, dir, x.file, e);
    }
  }

  /** Every fragment is read under a path that ends with its own name. */
  lemma {:induction false} VisitPathEndsWithName(files: seq<Node>, dir: Path, x: Visit)
    requires x in Visits(files, dir) && x.Fragment?
    ensures FileName(x.file) == x.name
    decreases files
  {
    var last := |files| - 1;
    var prefix := files[..last];
    var e := files[last];
    if x in Visits(prefix, dir) {
      VisitPathEndsWithName(prefix, dir, x);
    } else if e.Dir? && x in Listing(e, dir + [e.name]) {
      VisitPathEndsWithName(e.entries, dir + [e.name], x);
    } else {
      assert x == Fragment(dir + [e.name], e.name, e.File?);
    }
  }

  lemma FragmentPathEndsWithName(src: Option<Node>, x: Visit)
    requires x in RootVisits(src) && x.Fragment?
    ensures FileName(x.file) == x.name
  {
    VisitPathEndsWithName(src.value.entries, [], x);
  }

  /** The walk of a listing's first `k + 1` entries extends that of its first `k`. */
  lemma VisitsStep(files: seq<Node>, dir: Path, k: nat)
    requires k < |files|
    ensures Visits(files[..k + 1], dir) == Visits(files[..k], dir) + EntryVisits(files[k], dir)
  {
    assert files[..k + 1][..k] == files[..k];
  }

  /** The walk of a listing's first `k` entries is a prefix of the walk of all of them. */
  lemma {:induction false} VisitsPrefix(files: seq<Node>, dir: Path, k: nat)
    requires k <= |files|
    ensures Visits(files[..k], dir) <= Visits(files, dir)
    decreases |files|
  {
    if k < |files| {
      var prefix := files[..|files| - 1];
      assert prefix[..k] == files[..k];
      VisitsPrefix(prefix, dir, k);
    } else {
      assert files[..k] == files;
    }
  }

  /** The files the goals read and write. The directory structure is the `Node` tree; the
      contents live here. A path without parseable JSON content is absent from `sources`. */
  class Workspace {
    /** Parsed content of the files below the source directory, by path. */
    var sources: map<Path, Json>
    /** Files in the output directory, by file name. */
    var outputs: map<string, Json>

    constructor (sources: map<Path, Json>, outputs: map<string, Json>)
      ensures this.sources == sources && this.outputs == outputs
    {
      this.sources := sources;
      this.outputs := outputs;
    }
  }
}
