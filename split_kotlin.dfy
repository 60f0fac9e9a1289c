/** The Kotlin split goal (I18nSplitMojo.kt). */
module KotlinSplit {
  import opened Documents
  import opened Fragments
  import opened Rewrite
  import opened Split

  class I18nSplitMojo {
    /** The `i18n.language` parameter. */
    const language: string

    constructor (language: string)
      ensures this.language == language
    {
      this.language := language;
    }

    /** `execute()`: reads the combined file (`combined`, nothing when reading throws),
        casts it to an object and splits it into every fragment below the source
        directory; a missing directory lists as null and is skipped. */
    method Execute(combined: Option<Json>, src: Option<Node>, ws: Workspace) returns (failure: Option<Failure>)
      modifies ws
      ensures ws.outputs == old(ws.outputs)
      ensures SplitRun(Kotlin, language, combined, src, old(ws.sources)) == Outcome(ws.sources, failure)
    {
      if combined.None? {
        return Some(CombinedUnreadable);
      }
      if !combined.value.Obj? {
        return Some(CombinedNotAnObject);
      }
      var node := combined.value.fields;
      if src.None? {
        RewriteFoldSingle(Kotlin, Splitter(Kotlin, language, Obj(node)), ws.sources, Unlisted([]));
        return None;
      }
      assert RootVisits(src) == Listing(src.value, []);
      failure := SplitJsonFile(node, src.value, [], ws);
    }

    /** `splitJsonFile(node, dir)`: walks the listing of `dir`; a null listing returns. */
    method SplitJsonFile(node: map<string, Json>, dir: Node, path: Path, ws: Workspace) returns (failure: Option<Failure>)
      modifies ws
      ensures ws.outputs == old(ws.outputs)
      ensures RewriteFold(Kotlin, Splitter(Kotlin, language, Obj(node)), old(ws.sources), Listing(dir, path)) == Outcome(ws.sources, failure)
      decreases dir, 0
    {
      if !(dir.Dir? && dir.listable) {
        RewriteFoldSingle(Kotlin, Splitter(Kotlin, language, Obj(node)), ws.sources, Unlisted(path));
        return None;
      }
      failure := None;
      var files := dir.entries;
      var i := 0;
      while i < |files|
        invariant 0 <= i <= |files|
        invariant RewriteFold(Kotlin, Splitter(Kotlin, language, Obj(node)), old(ws.sources), Visits(files[..i], path)) == Outcome(ws.sources, None)
        invariant failure == None
        invariant ws.outputs == old(ws.outputs)
      {
        failure := SplitEntry(node, files[i], path, ws);
        RewriteWalkStep(Kotlin, Splitter(Kotlin, language, Obj(node)), old(ws.sources), files, path, i);
        if failure.Some? {
          return;
        }
        i := i + 1;
      }
      assert files[..i] == files;
    }

    /** The body of the walk's loop for one entry: a directory is walked, then an entry
        with the fragment suffix is split into. */
    method SplitEntry(node: map<string, Json>, file: Node, path: Path, ws: Workspace) returns (failure: Option<Failure>)
      modifies ws
      ensures ws.outputs == old(ws.outputs)
      ensures RewriteFold(Kotlin, Splitter(Kotlin, language, Obj(node)), old(ws.sources), EntryVisits(file, path)) == Outcome(ws.sources, failure)
      decreases file, 1
    {
      failure := None;
      ghost var sub := if file.Dir? then Listing(file, path + [file.name]) else [];
      if file.Dir? {
        failure := SplitJsonFile(node, file, path + [file.name], ws);
        if failure.Some? {
          if IsFragmentName(file.name) {
            RewriteFailureStops(Kotlin, Splitter(Kotlin, language, Obj(node)), old(ws.sources), sub, EntryVisits(file, path));
          } else {
            assert EntryVisits(file, path) == sub;
          }
          return;
        }
      }
      assert RewriteFold(Kotlin, Splitter(Kotlin, language, Obj(node)), old(ws.sources), sub) == Outcome(ws.sources, None);
      if IsFragmentName(file.name) {
        var visit := Fragment(path + [file.name], file.name, file.File?);
        ghost var mid := ws.sources;
        failure := SplitFile(node, path + [file.name], file.name, file.File?, ws);
        RewriteFoldAppend(Kotlin, Splitter(Kotlin, language, Obj(node)), old(ws.sources), sub, [visit]);
        RewriteFoldSingle(Kotlin, Splitter(Kotlin, language, Obj(node)), mid, visit);
        assert EntryVisits(file, path) == sub + [visit];
      } else {
        assert EntryVisits(file, path) == sub;
      }
    }

    /** One fragment: read it as an object, cast its language block (creating it when
        absent), cast `node.get(name)` to an object, set each of its fields in the block
        and write the fragment back. */
    method SplitFile(node: map<string, Json>, file: Path, name: string, isFile: bool, ws: Workspace) returns (failure: Option<Failure>)
      requires IsFragmentName(name) && FileName(file) == name
      modifies ws
      ensures ws.outputs == old(ws.outputs)
      ensures match SplitFragment(Kotlin, language, Obj(node), file, ReadTree(old(ws.sources), file, isFile))
              case Ok(doc) => failure == None && ws.sources == old(ws.sources)[file := doc]
              case Err(e) => failure == Some(e) && ws.sources == old(ws.sources)
    {
      var current := ReadTree(ws.sources, file, isFile);
      if current.None? {
        return Some(Unreadable(file));
      }
      if !current.value.Obj? {
        return Some(NotAnObject(file));
      }
      var contents := current.value.fields;
      if language in contents && !contents[language].Obj? {
        return Some(BlockNotAnObject(file, language));
      }
      var block := LanguageBlock(contents, language);
      ComponentOfFragment(name);
      var component := KotlinSplitOnDots(name)[0];
      if component !in node {
        return Some(ComponentMissing(file, component));
      }
      var newValues := Some(node[component]);
      if !newValues.value.Obj? {
        return Some(ComponentNotAnObject(file, component));
      }
      var merged := SetFields(block, Members(newValues.value));
      assert merged == block + Members(newValues.value);
      ws.sources := ws.sources[file := Obj(contents[language := Obj(merged)])];
      return None;
    }
  }
}
