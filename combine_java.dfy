/** The typed Java combine goal (I18nCombineMojo.java). */
module JavaCombine {
  import opened Documents
  import opened Fragments
  import opened Combine

  class I18nCombineMojo {
    /** The object node `root` that the recursive walk fills in place. */
    var root: Table

    constructor ()
      ensures root == map[]
    {
      root := map[];
    }

    /** `execute()`: creates the output directory, skips a missing source directory,
        walks the tree and writes one `<lang>.json` per language of the root. */
    method Execute(src: Option<Node>, outDirReady: bool, ws: Workspace) returns (failure: Option<Failure>)
      modifies this, ws
      ensures ws.sources == old(ws.sources)
      ensures match CombineRun(JavaTree, src, old(ws.sources), outDirReady)
              case Ok(t) => failure == None && ws.outputs == old(ws.outputs) + OutputFiles(t)
              case Err(e) => failure == Some(e) && ws.outputs == old(ws.outputs)
    {
      if !outDirReady {
        return Some(OutputDirNotCreated);
      }
      if src.None? {
        assert OutputFiles(map[]) == map[];
        return None;
      }
      root := map[];
      failure := CombineJsonFiles(src.value, [], ws.sources);
      if failure.None? {
        WriteOutputs(root, ws);
      }
    }

    /** `combineJsonFiles(root, dir)`: walks the listing of `dir`, which must not be null. */
    method CombineJsonFiles(dir: Node, path: Path, disk: map<Path, Json>) returns (failure: Option<Failure>)
      modifies this`root
      ensures match CombineFold(JavaTree, disk, old(root), Listing(dir, path))
              case Ok(t) => failure == None && root == t
              case Err(e) => failure == Some(e)
      decreases dir, 0
    {
      if !(dir.Dir? && dir.listable) {
        CombineFoldSingle(JavaTree, disk, root, Unlisted(path));
        return Some(ListingUnavailable(path));
      }
      failure := None;
      var files := dir.entries;
      var i := 0;
      while i < |files|
        invariant 0 <= i <= |files|
        invariant CombineFold(JavaTree, disk, old(root), Visits(files[..i], path)) == Ok(root)
        invariant failure == None
      {
        failure := CombineEntry(files[i], path, disk);
        CombineWalkStep(JavaTree, disk, old(root), files, path, i);
        if failure.Some? {
          return;
        }
        i := i + 1;
      }
      assert files[..i] == files;
    }

    /** The body of the walk's loop for one entry: a directory is walked, then an entry
        with the fragment suffix is read. */
    method CombineEntry(file: Node, path: Path, disk: map<Path, Json>) returns (failure: Option<Failure>)
      modifies this`root
      ensures match CombineFold(JavaTree, disk, old(root), EntryVisits(file, path))
              case Ok(t) => failure == None && root == t
              case Err(e) => failure == Some(e)
      decreases file, 1
    {
      failure := None;
      ghost var sub := if file.Dir? then Listing(file, path + [file.name]) else [];
      if file.Dir? {
        failure := CombineJsonFiles(file, path + [file.name], disk);
        if failure.Some? {
          if IsFragmentName(file.name) {
            CombineFailureStops(JavaTree, disk, old(root), sub, EntryVisits(file, path));
          } else {
            assert EntryVisits(file, path) == sub;
          }
          return;
        }
      }
      assert CombineFold(JavaTree, disk, old(root), sub) == Ok(root);
      if IsFragmentName(file.name) {
        var visit := Fragment(path + [file.name], file.name, file.File?);
        ghost var mid := root;
        failure := CombineFragment(path + [file.name], file.name, file.File?, disk);
        CombineFoldAppend(JavaTree, disk, old(root), sub, [visit]);
        CombineFoldSingle(JavaTree, disk, mid, visit);
        assert EntryVisits(file, path) == sub + [visit];
      } else {
        assert EntryVisits(file, path) == sub;
      }
    }

    /** One fragment: read it, take its component from the file name and set
        `root[lang][component]` to `block.get(lang)` for each of its language blocks. */
    method CombineFragment(file: Path, name: string, isFile: bool, disk: map<Path, Json>) returns (failure: Option<Failure>)
      requires IsFragmentName(name)
      modifies this`root
      ensures match CombineStep(JavaTree, disk, old(root), Fragment(file, name, isFile))
              case Ok(t) => failure == None && root == t
              case Err(e) => failure == Some(e)
    {
      var current := ReadTree(disk, file, isFile);
      if current.None? {
        return Some(Unreadable(file));
      }
      ComponentOfFragment(name);
      var component := JavaSplitOnDots(name)[0];
      var blocks := Members(current.value);
      ghost var t0 := root;
      var t := root;
      var langs := blocks.Keys;
      while langs != {}
        invariant langs <= blocks.Keys
        invariant t == AddLanguages(JavaTree, t0, component, blocks, blocks.Keys - langs)
        decreases langs
      {
        var lang :| lang in langs;
        AddLanguagesStep(JavaTree, t0, component, blocks, langs, lang);
        if lang !in t {
          t := t[lang := map[]];
        }
        var currentMap := t[lang];
        var inner := Get(blocks[lang], lang);
        var stored := if inner.Some? then inner.value else Null;
        assert stored == Stored(JavaTree, blocks, lang);
        t := t[lang := currentMap[component := stored]];
        langs := langs - {lang};
      }
      root := t;
      assert blocks.Keys - langs == blocks.Keys;
      FragmentStep(JavaTree, disk, t0, file, name, isFile);
      return None;
    }
  }
}
