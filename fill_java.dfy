/** The Java fill goal (I18nFillMojo.java). */
module JavaFill {
  import opened Documents
  import opened Fragments
  import opened Rewrite
  import opened Fill

  class I18nFillMojo {
    /** The `i18n.sourceLanguage` parameter. */
    const sourceLanguage: string
    /** The `i18n.targetLanguage` parameter. */
    const targetLanguage: string

    constructor (sourceLanguage: string, targetLanguage: string)
      ensures this.sourceLanguage == sourceLanguage && this.targetLanguage == targetLanguage
    {
      this.sourceLanguage := sourceLanguage;
      this.targetLanguage := targetLanguage;
    }

    /** `execute()`: skips a missing source directory, else fills every fragment below it. */
    method Execute(src: Option<Node>, ws: Workspace) returns (failure: Option<Failure>)
      modifies ws
      ensures ws.outputs == old(ws.outputs)
      ensures FillRun(Java, sourceLanguage, targetLanguage, src, old(ws.sources)) == Outcome(ws.sources, failure)
    {
      if src.None? {
        return None;
      }
      assert RootVisits(src) == Listing(src.value, []);
      failure := FillMissingValues(src.value, [], ws);
    }

    /** `fillMissingValues(dir)`: walks the listing of `dir`, which must not be null. */
    method FillMissingValues(dir: Node, path: Path, ws: Workspace) returns (failure: Option<Failure>)
      modifies ws
      ensures ws.outputs == old(ws.outputs)
      ensures FillFold(Java, sourceLanguage, targetLanguage, old(ws.sources), Listing(dir, path)) == Outcome(ws.sources, failure)
      decreases dir, 0
    {
      if !(dir.Dir? && dir.listable) {
        RewriteFoldSingle(Java, Filler(Java, sourceLanguage, targetLanguage), ws.sources, Unlisted(path));
        return Some(ListingUnavailable(path));
      }
      failure := None;
      var files := dir.entries;
      var i := 0;
      while i < |files|
        invariant 0 <= i <= |files|
        invariant FillFold(Java, sourceLanguage, targetLanguage, old(ws.sources), Visits(files[..i], path)) == Outcome(ws.sources, None)
        invariant failure == None
        invariant ws.outputs == old(ws.outputs)
      {
        failure := FillEntry(files[i], path, ws);
        RewriteWalkStep(Java, Filler(Java, sourceLanguage, targetLanguage), old(ws.sources), files, path, i);
        if failure.Some? {
          return;
        }
        i := i + 1;
      }
      assert files[..i] == files;
    }

    /** The body of the walk's loop for one entry: a directory is walked, then an entry
        with the fragment suffix is filled. */
    method FillEntry(file: Node, path: Path, ws: Workspace) returns (failure: Option<Failure>)
      modifies ws
      ensures ws.outputs == old(ws.outputs)
      ensures FillFold(Java, sourceLanguage, targetLanguage, old(ws.sources), EntryVisits(file, path)) == Outcome(ws.sources, failure)
      decreases file, 1
    {
      failure := None;
      ghost var sub := if file.Dir? then Listing(file, path + [file.name]) else [];
      if file.Dir? {
        failure := FillMissingValues(file, path + [file.name], ws);
        if failure.Some? {
          if IsFragmentName(file.name) {
            RewriteFailureStops(Java, Filler(Java, sourceLanguage, targetLanguage), old(ws.sources), sub, EntryVisits(file, path));
          } else {
            assert EntryVisits(file, path) == sub;
          }
          return;
        }
      }
      assert FillFold(Java, sourceLanguage, targetLanguage, old(ws.sources), sub) == Outcome(ws.sources, None);
      if IsFragmentName(file.name) {
        var visit := Fragment(path + [file.name], file.name, file.File?);
        ghost var mid := ws.sources;
        failure := FillFile(path + [file.name], file.File?, ws);
        RewriteFoldAppend(Java, Filler(Java, sourceLanguage, targetLanguage), old(ws.sources), sub, [visit]);
        RewriteFoldSingle(Java, Filler(Java, sourceLanguage, targetLanguage), mid, visit);
        assert EntryVisits(file, path) == sub + [visit];
      } else {
        assert EntryVisits(file, path) == sub;
      }
    }

    /** One fragment: read it as an object, cast the target block (creating it when
        absent), add the missing keys from the source block and write the fragment back. */
    method FillFile(file: Path, isFile: bool, ws: Workspace) returns (failure: Option<Failure>)
      modifies ws
      ensures ws.outputs == old(ws.outputs)
      ensures match FillFragment(Java, sourceLanguage, targetLanguage, file, ReadTree(old(ws.sources), file, isFile))
              case Ok(doc) => failure == None && ws.sources == old(ws.sources)[file := doc]
              case Err(e) => failure == Some(e) && ws.sources == old(ws.sources)
    {
      var current := ReadTree(ws.sources, file, isFile);
      if current.None? {
        return Some(Unreadable(file));
      }
      if !current.value.Obj? {
        return Some(NotAnObject(file));
      }
      var contents := current.value.fields;
      if targetLanguage in contents && !contents[targetLanguage].Obj? {
        return Some(BlockNotAnObject(file, targetLanguage));
      }
      if sourceLanguage !in contents {
        return Some(MissingBlock(file, sourceLanguage));
      }
      var source := Members(contents[sourceLanguage]);
      var target := LanguageBlock(contents, targetLanguage);
      var filled := AddPlaceholders(source, target, targetLanguage);
      ws.sources := ws.sources[file := Obj(contents[targetLanguage := Obj(filled)])];
      return None;
    }
  }
}
