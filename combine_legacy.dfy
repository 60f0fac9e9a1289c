/** The older untyped Java combine goal (I18nMojo.java), over plain maps. */
module LegacyCombine {
  import opened Documents
  import opened Fragments
  import opened Combine

  class I18nMojo {
    /** The `HashMap` accumulator `map` that the recursive walk fills in place. */
    var root: Table

    constructor ()
      ensures root == map[]
    {
      root := map[];
    }

    /** `execute()`: creates the output directory and walks the source directory with no
        existence check, then writes one `<lang>.json` per key of the map. */
    method Execute(src: Option<Node>, outDirReady: bool, ws: Workspace) returns (failure: Option<Failure>)
      modifies this, ws
      ensures ws.sources == old(ws.sources)
      ensures match CombineRun(JavaUntyped, src, old(ws.sources), outDirReady)
              case Ok(t) => failure == None && ws.outputs == old(ws.outputs) + OutputFiles(t)
              case Err(e) => failure == Some(e) && ws.outputs == old(ws.outputs)
    {
      if !outDirReady {
        return Some(OutputDirNotCreated);
      }
      root := map[];
      if src.None? {
        CombineFoldSingle(JavaUntyped, ws.sources, map[], Unlisted([]));
        return Some(ListingUnavailable([]));
      }
      failure := CombineJsonFiles(src.value, [], ws.sources);
      if failure.None? {
        WriteOutputs(root, ws);
      }
    }

    /** `combineJsonFiles(map, dir)`: walks the listing of `dir`, which must not be null. */
    method CombineJsonFiles(dir: Node, path: Path, disk: map<Path, Json>) returns (failure: Option<Failure>)
      modifies this`root
      ensures match CombineFold(JavaUntyped, disk, old(root), Listing(dir, path))
              case Ok(t) => failure == None && root == t
              case Err(e) => failure == Some(e)
      decreases dir, 0
    {
      if !(dir.Dir? && dir.listable) {
        CombineFoldSingle(JavaUntyped, disk, root, Unlisted(path));
        return Some(ListingUnavailable(path));
      }
      failure := None;
      var files := dir.entries;
      var i := 0;
      while i < |files|
        invariant 0 <= i <= |files|
        invariant CombineFold(JavaUntyped, disk, old(root), Visits(files[..i], path)) == Ok(root)
        invariant failure == None
      {
        failure := CombineEntry(files[i], path, disk);
        CombineWalkStep(JavaUntyped, disk, old(root), files, path, i);
        if failure.Some? {
          return;
        }
        i := i + 1;
      }
      assert files[..i] == files;
    }

    /** The body of the walk's loop for one entry: a directory is walked, then an entry
        with the fragment suffix is read. */
    method CombineEntry(file: Node, path: Path, disk: map<Path, Json>) returns (failure: Option<Failure>)
      modifies this`root
      ensures match CombineFold(JavaUntyped, disk, old(root), EntryVisits(file, path))
              case Ok(t) => failure == None && root == t
              case Err(e) => failure == Some(e)
      decreases file, 1
    {
      failure := None;
      ghost var sub := if file.Dir? then Listing(file, path + [file.name]) else [];
      if file.Dir? {
        failure := CombineJsonFiles(file, path + [file.name], disk);
        if failure.Some? {
          if IsFragmentName(file.name) {
            CombineFailureStops(JavaUntyped, disk, old(root), sub, EntryVisits(file, path));
          } else {
            assert EntryVisits(file, path) == sub;
          }
          return;
        }
      }
      assert CombineFold(JavaUntyped, disk, old(root), sub) == Ok(root);
      if IsFragmentName(file.name) {
        var visit := Fragment(path + [file.name], file.name, file.File?);
        ghost var mid := root;
        failure := CombineFragment(path + [file.name], file.name, file.File?, disk);
        CombineFoldAppend(JavaUntyped, disk, old(root), sub, [visit]);
        CombineFoldSingle(JavaUntyped, disk, mid, visit);
        assert EntryVisits(file, path) == sub + [visit];
      } else {
        assert EntryVisits(file, path) == sub;
      }
    }

    /** One fragment: read it as a `Map`, take its component from the file name and put
        the fragment's value for each language under `map[lang][component]`. */
    method CombineFragment(file: Path, name: string, isFile: bool, disk: map<Path, Json>) returns (failure: Option<Failure>)
      requires IsFragmentName(name)
      modifies this`root
      ensures match CombineStep(JavaUntyped, disk, old(root), Fragment(file, name, isFile))
              case Ok(t) => failure == None && root == t
              case Err(e) => failure == Some(e)
    {
      var current := ReadTree(disk, file, isFile);
      if current.None? {
        return Some(Unreadable(file));
      }
      if !current.value.Obj? {
        return Some(NotAnObject(file));
      }
      ComponentOfFragment(name);
      var component := JavaSplitOnDots(name)[0];
      var blocks := current.value.fields;
      ghost var t0 := root;
      var t := root;
      var langs := blocks.Keys;
      while langs != {}
        invariant langs <= blocks.Keys
        invariant t == AddLanguages(JavaUntyped, t0, component, blocks, blocks.Keys - langs)
        decreases langs
      {
        var lang :| lang in langs;
        AddLanguagesStep(JavaUntyped, t0, component, blocks, langs, lang);
        if lang !in t {
          t := t[lang := map[]];
        }
        var currentMap := t[lang];
        t := t[lang := currentMap[component := blocks[lang]]];
        langs := langs - {lang};
      }
      root := t;
      assert blocks.Keys - langs == blocks.Keys;
      return None;
    }
  }
}
