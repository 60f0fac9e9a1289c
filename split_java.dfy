/** The Java split goal (I18nSplitMojo.java). */
module JavaSplit {
  import opened Documents
  import opened Fragments
  import opened Rewrite
  import opened Split

  class I18nSplitMojo {
    /** The `i18n.language` parameter. */
    const language: string

    constructor (language: string)
      ensures this.language == language
    {
      this.language := language;
    }

    /** `execute()`: reads the combined file (`combined`, nothing when reading throws)
        and splits it into every fragment below the source directory. */
    method Execute(combined: Option<Json>, src: Option<Node>, ws: Workspace) returns (failure: Option<Failure>)
      modifies ws
      ensures ws.outputs == old(ws.outputs)
      ensures SplitRun(Java, language, combined, src, old(ws.sources)) == Outcome(ws.sources, failure)
    {
      if combined.None? {
        return Some(CombinedUnreadable);
      }
      if src.None? {
        RewriteFoldSingle(Java, Splitter(Java, language, combined.value), ws.sources, Unlisted([]));
        return Some(ListingUnavailable([]));
      }
      assert RootVisits(src) == Listing(src.value, []);
      failure := SplitJsonFile(combined.value, src.value, [], ws);
    }

    /** `splitJsonFile(root, dir)`: walks the listing of `dir`, which must not be null. */
    method SplitJsonFile(root: Json, dir: Node, path: Path, ws: Workspace) returns (failure: Option<Failure>)
      modifies ws
      ensures ws.outputs == old(ws.outputs)
      ensures RewriteFold(Java, Splitter(Java, language, root), old(ws.sources), Listing(dir, path)) == Outcome(ws.sources, failure)
      decreases dir, 0
    {
      if !(dir.Dir? && dir.listable) {
        RewriteFoldSingle(Java, Splitter(Java, language, root), ws.sources, Unlisted(path));
        return Some(ListingUnavailable(path));
      }
      failure := None;
      var files := dir.entries;
      var i := 0;
      while i < |files|
        invariant 0 <= i <= |files|
        invariant RewriteFold(Java, Splitter(Java, language, root), old(ws.sources), Visits(files[..i], path)) == Outcome(ws.sources, None)
        invariant failure == None
        invariant ws.outputs == old(ws.outputs)
      {
        failure := SplitEntry(root, files[i], path, ws);
        RewriteWalkStep(Java, Splitter(Java, language, root), old(ws.sources), files, path, i);
        if failure.Some? {
          return;
        }
        i := i + 1;
      }
      assert files[..i] == files;
    }

    /** The body of the walk's loop for one entry: a directory is walked, then an entry
        with the fragment suffix is split into. */
    method SplitEntry(root: Json, file: Node, path: Path, ws: Workspace) returns (failure: Option<Failure>)
      modifies ws
      ensures ws.outputs == old(ws.outputs)
      ensures RewriteFold(Java, Splitter(Java, language, root), old(ws.sources), EntryVisits(file, path)) == Outcome(ws.sources, failure)
      decreases file, 1
    {
      failure := None;
      ghost var sub := if file.Dir? then Listing(file, path + [file.name]) else [];
      if file.Dir? {
        failure := SplitJsonFile(root, file, path + [file.name], ws);
        if failure.Some? {
          if IsFragmentName(file.name) {
            RewriteFailureStops(Java, Splitter(Java, language, root), old(ws.sources), sub, EntryVisits(file, path));
          } else {
            assert EntryVisits(file, path) == sub;
          }
          return;
        }
      }
      assert RewriteFold(Java, Splitter(Java, language, root), old(ws.sources), sub) == Outcome(ws.sources, None);
      if IsFragmentName(file.name) {
        var visit := Fragment(path + [file.name], file.name, file.File?);
        ghost var mid := ws.sources;
        failure := SplitFile(root, path + [file.name], file.name, file.File?, ws);
        RewriteFoldAppend(Java, Splitter(Java, language, root), old(ws.sources), sub, [visit]);
        RewriteFoldSingle(Java, Splitter(Java, language, root), mid, visit);
        assert EntryVisits(file, path) == sub + [visit];
      } else {
        assert EntryVisits(file, path) == sub;
      }
    }

    /** One fragment: read it as an object, cast its language block (creating it when
        absent), set every field of `root.get(name)` in it and write the fragment back. */
    method SplitFile(root: Json, file: Path, name: string, isFile: bool, ws: Workspace) returns (failure: Option<Failure>)
      requires IsFragmentName(name) && FileName(file) == name
      modifies ws
      ensures ws.outputs == old(ws.outputs)
      ensures match SplitFragment(Java, language, root, file, ReadTree(old(ws.sources), file, isFile))
              case Ok(doc) => failure == None && ws.sources == old(ws.sources)[file := doc]
              case Err(e) => failure == Some(e) && ws.sources == old(ws.sources)
    {
      var current := ReadTree(ws.sources, file, isFile);
      if current.None? {
        return Some(Unreadable(file));
      }
      if !current.value.Obj? {
        return Some(NotAnObject(file));
      }
      var contents := current.value.fields;
      if language in contents && !contents[language].Obj? {
        return Some(BlockNotAnObject(file, language));
      }
      var block := LanguageBlock(contents, language);
      ComponentOfFragment(name);
      var component := JavaSplitOnDots(name)[0];
      var newValues := Get(root, component);
      if newValues.None? {
        return Some(ComponentMissing(file, component));
      }
      var merged := SetFields(block, Members(newValues.value));
      assert merged == block + Members(newValues.value);
      ws.sources := ws.sources[file := Obj(contents[language := Obj(merged)])];
      return None;
    }
  }
}
