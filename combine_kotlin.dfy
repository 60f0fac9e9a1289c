/** The Kotlin combine goal (I18nCombineMojo.kt). */
module KotlinCombine {
  import opened Documents
  import opened Fragments
  import opened Combine

  class I18nCombineMojo {
    /** The object node `node` that the recursive walk fills in place. */
    var root: Table

    constructor ()
      ensures root == map[]
    {
      root := map[];
    }

    /** `execute()`: creates the output directory, walks the tree (a missing source
        directory lists as null and is skipped) and writes one `<key>.json` per language. */
    method Execute(src: Option<Node>, outDirReady: bool, ws: Workspace) returns (failure: Option<Failure>)
      modifies this, ws
      ensures ws.sources == old(ws.sources)
      ensures match CombineRun(KotlinTree, src, old(ws.sources), outDirReady)
              case Ok(t) => failure == None && ws.outputs == old(ws.outputs) + OutputFiles(t)
              case Err(e) => failure == Some(e) && ws.outputs == old(ws.outputs)
    {
      if !outDirReady {
        return Some(OutputDirNotCreated);
      }
      root := map[];
      if src.None? {
        assert RootVisits(src) == [Unlisted([])];
        CombineFoldSingle(KotlinTree, ws.sources, map[], Unlisted([]));
        assert OutputFiles(map[]) == map[];
        return None;
      }
      assert RootVisits(src) == Listing(src.value, []);
      failure := CombineJsonFiles(src.value, [], ws.sources);
      if failure.None? {
        WriteOutputs(root, ws);
      }
    }

    /** `combineJsonFiles(node, dir)`: walks the listing of `dir`; a null listing returns. */
    method CombineJsonFiles(dir: Node, path: Path, disk: map<Path, Json>) returns (failure: Option<Failure>)
      modifies this`root
      ensures match CombineFold(KotlinTree, disk, old(root), Listing(dir, path))
              case Ok(t) => failure == None && root == t
              case Err(e) => failure == Some(e)
      decreases dir, 0
    {
      if !(dir.Dir? && dir.listable) {
        CombineFoldSingle(KotlinTree, disk, root, Unlisted(path));
        assert Listing(dir, path) == [Unlisted(path)];
        return None;
      }
      failure := None;
      ghost var t0 := root;
      var files := dir.entries;
      var i := 0;
      while i < |files|
        invariant 0 <= i <= |files|
        invariant CombineFold(KotlinTree, disk, t0, Visits(files[..i], path)) == Ok(root)
        invariant failure == None
      {
        failure := CombineEntry(files[i], path, disk);
        CombineWalkStep(KotlinTree, disk, t0, files, path, i);
        if failure.Some? {
          return;
        }
        i := i + 1;
      }
      assert files[..i] == files;
    }

    /** The body of the walk's loop for one entry: a directory is walked, then an entry
        with the fragment suffix is read. */
    method CombineEntry(file: Node, path: Path, disk: map<Path, Json>) returns (failure: Option<Failure>)
      modifies this`root
      ensures match CombineFold(KotlinTree, disk, old(root), EntryVisits(file, path))
              case Ok(t) => failure == None && root == t
              case Err(e) => failure == Some(e)
      decreases file, 1
    {
      failure := None;
      ghost var sub := if file.Dir? then Listing(file, path + [file.name]) else [];
      if file.Dir? {
        failure := CombineJsonFiles(file, path + [file.name], disk);
        if failure.Some? {
          if IsFragmentName(file.name) {
            CombineFailureStops(KotlinTree, disk, old(root), sub, EntryVisits(file, path));
          } else {
            assert EntryVisits(file, path) == sub;
          }
          return;
        }
      }
      assert CombineFold(KotlinTree, disk, old(root), sub) == Ok(root);
      if IsFragmentName(file.name) {
        var visit := Fragment(path + [file.name], file.name, file.File?);
        ghost var mid := root;
        failure := CombineFragment(path + [file.name], file.name, file.File?, disk);
        CombineFoldAppend(KotlinTree, disk, old(root), sub, [visit]);
        CombineFoldSingle(KotlinTree, disk, mid, visit);
        assert EntryVisits(file, path) == sub + [visit];
      } else {
        assert EntryVisits(file, path) == sub;
      }
    }

    /** One fragment: read it as an object node, take its component from the file name
        and set `node[lang][component]` to the whole block for each language. */
    method CombineFragment(file: Path, name: string, isFile: bool, disk: map<Path, Json>) returns (failure: Option<Failure>)
      requires IsFragmentName(name)
      modifies this`root
      ensures match CombineStep(KotlinTree, disk, old(root), Fragment(file, name, isFile))
              case Ok(t) => failure == None && root == t
              case Err(e) => failure == Some(e)
    {
      var current := ReadTree(disk, file, isFile);
      if current.None? {
        return Some(Unreadable(file));
      }
      if !current.value.Obj? {
        return Some(NotAnObject(file));
      }
      ComponentOfFragment(name);
      var component := KotlinSplitOnDots(name)[0];
      var blocks := current.value.fields;
      ghost var t0 := root;
      var t := root;
      var langs := blocks.Keys;
      while langs != {}
        invariant langs <= blocks.Keys
        invariant t == AddLanguages(KotlinTree, t0, component, blocks, blocks.Keys - langs)
        decreases langs
      {
        var lang :| lang in langs;
        AddLanguagesStep(KotlinTree, t0, component, blocks, langs, lang);
        if lang !in t {
          t := t[lang := map[]];
        }
        var currentMap := t[lang];
        t := t[lang := currentMap[component := blocks[lang]]];
        langs := langs - {lang};
      }
      root := t;
      assert blocks.Keys - langs == blocks.Keys;
      return None;
    }
  }
}
