/** The combine goal, stated on values: what each implementation accumulates from
    the fragments it visits, and which files it writes. */
module Combine {
  import opened Documents
  import opened Fragments

  /** The accumulated root object: language -> component -> stored value. */
  type Table = map<string, map<string, Json>>

  /** The three implementations of the combine goal. */
  datatype Variant =
    | JavaTree     // I18nCombineMojo.java: Jackson tree, stores `block.get(lang)`
    | KotlinTree   // I18nCombineMojo.kt: Jackson tree, stores the whole block
    | JavaUntyped  // I18nMojo.java: untyped maps, stores the whole block

  /** The record of `lang`, empty when the language has not been seen. */
  function Record(t: Table, lang: string): map<string, Json>
  {
    if lang in t then t[lang] else map[]
  }

  /** `root[lang][component]`, when present. */
  function Lookup(t: Table, lang: string, component: string): Option<Json>
  {
    if lang in t && component in t[lang] then Some(t[lang][component]) else None
  }

  /** The value stored for `lang` from a fragment with language blocks `blocks`. The typed
      Java goal stores `block.get(lang)`, which Jackson turns into JSON null when absent. */
  function Stored(v: Variant, blocks: map<string, Json>, lang: string): (r: Json)
    requires lang in blocks
    ensures v != JavaTree ==> r == blocks[lang]
    ensures v == JavaTree && blocks[lang].Obj? && lang in blocks[lang].fields ==> r == blocks[lang].fields[lang]
    ensures v == JavaTree && !(blocks[lang].Obj? && lang in blocks[lang].fields) ==> r == Null
  {
    if v == JavaTree then
      (match Get(blocks[lang], lang) case Some(inner) => inner case None => Null)
    else blocks[lang]
  }

  /** The table after the languages `langs` of one fragment have been recorded. */
  function AddLanguages(v: Variant, t: Table, component: string, blocks: map<string, Json>,
                        langs: set<string>): Table
    requires langs <= blocks.Keys
  {
    map l | l in t.Keys + langs ::
      if l in langs then Record(t, l)[component := Stored(v, blocks, l)] else t[l]
  }

  /** The table after one fragment has been recorded. */
  function AddFragment(v: Variant, t: Table, component: string, blocks: map<string, Json>): (r: Table)
    ensures r.Keys == t.Keys + blocks.Keys
    ensures forall lang, c ::
              Lookup(r, lang, c) ==
              (if lang in blocks && c == component then Some(Stored(v, blocks, lang)) else Lookup(t, lang, c))
  {
    AddLanguages(v, t, component, blocks, blocks.Keys)
  }

  /** The effect of one visit on the table. */
  function CombineStep(v: Variant, disk: map<Path, Json>, t: Table, x: Visit): (r: Result<Table>)
    ensures x.Unlisted? ==> (r.Ok? <==> v == KotlinTree)
    ensures x.Fragment? ==>
      var doc := ReadTree(disk, x.file, x.isFile);
      (r.Err? <==> doc.None? || (v != JavaTree && !doc.value.Obj?))
    ensures r.Ok? ==> t.Keys <= r.value.Keys
  {
    match x
    case Unlisted(dir) =>
      if v == KotlinTree then Ok(t) else Err(ListingUnavailable(dir))
    case Fragment(file, name, isFile) =>
      match ReadTree(disk, file, isFile)
      case None => Err(Unreadable(file))
      case Some(doc) =>
        if doc.Obj? then Ok(AddFragment(v, t, ComponentName(name), doc.fields))
        else if v == JavaTree then Ok(t)
        else Err(NotAnObject(file))
  }

  /** The table after the visits `vs`, or the first failure. */
  function CombineFold(v: Variant, disk: map<Path, Json>, t: Table, vs: seq<Visit>): Result<Table>
    decreases |vs|
  {
    if vs == [] then Ok(t)
    else
      match CombineFold(v, disk, t, vs[..|vs| - 1])
      case Err(e) => Err(e)
      case Ok(t') => CombineStep(v, disk, t', vs[|vs| - 1])
  }

  /** The whole goal up to the output loop: output directory first, then (typed Java only)
      the existence check, then the walk from an empty root. */
  function CombineRun(v: Variant, src: Option<Node>, disk: map<Path, Json>, outDirReady: bool): (r: Result<Table>)
    ensures !outDirReady ==> r == Err(OutputDirNotCreated)
    ensures outDirReady && src.None? ==>
      r == if v == JavaUntyped then Err(ListingUnavailable([])) else Ok(map[])
    ensures outDirReady && src.Some? ==> r == CombineFold(v, disk, map[], Listing(src.value, []))
  {
    CombineFoldSingle(v, disk, map[], Unlisted([]));
    if !outDirReady then Err(OutputDirNotCreated)
    else if v == JavaTree && src.None? then Ok(map[])
    else CombineFold(v, disk, map[], RootVisits(src))
  }

  /** The name of the output file of a language. */
  function OutputName(lang: string): string
  {
    lang + ".json"
  }

  /** Distinct languages write distinct files. */
  lemma OutputNameInjective()
    ensures forall a, b :: OutputName(a) == OutputName(b) ==> a == b
  {
    forall a, b | OutputName(a) == OutputName(b) ensures a == b {
      assert a == OutputName(a)[..|a|];
      assert b == OutputName(b)[..|b|];
    }
  }

  /** The files the output loop writes: one `<lang>.json` per language of the table,
      holding that language's record, and no other. */
  function OutputFiles(t: Table): map<string, Json>
  {
    OutputNameInjective();
    map l | l in t :: OutputName(l) := Obj(t[l])
  }

  // ---------------------------------------------------------------------------
  // Properties of the accumulation

  /** Running `a + b` is running `a`, then `b` from the table `a` left. */
  lemma {:induction false} CombineFoldAppend(v: Variant, disk: map<Path, Json>, t: Table, a: seq<Visit>, b: seq<Visit>)
    ensures CombineFold(v, disk, t, a + b) ==
      match CombineFold(v, disk, t, a)
      case Err(e) => Err(e)
      case Ok(t') => CombineFold(v, disk, t', b)
    decreases |b|
  {
    if b == [] {
      assert a + b == a;
    } else {
      var b' := b[..|b| - 1];
      assert (a + b)[..|a + b| - 1] == a + b';
      assert (a + b)[|a + b| - 1] == b[|b| - 1];
      CombineFoldAppend(v, disk, t, a, b');
    }
  }

  /** The language keys of one visited fragment, when it is an object. */
  function FragmentLanguages(disk: map<Path, Json>, x: Visit): set<string>
  {
    if x.Fragment? then
      match ReadTree(disk, x.file, x.isFile)
      case Some(Obj(blocks)) => blocks.Keys
      case _ => {}
    else {}
  }

  /** The language keys of all object fragments among `vs`. */
  function Languages(disk: map<Path, Json>, vs: seq<Visit>): set<string>
    decreases |vs|
  {
    if vs == [] then {}
    else Languages(disk, vs[..|vs| - 1]) + FragmentLanguages(disk, vs[|vs| - 1])
  }

  /** After the walk, the root's languages are exactly the languages it started with and
      every language key of every fragment read. */
  lemma {:induction false} CombineCollectsLanguages(v: Variant, disk: map<Path, Json>, t0: Table, vs: seq<Visit>, t: Table)
    requires CombineFold(v, disk, t0, vs) == Ok(t)
    ensures t.Keys == t0.Keys + Languages(disk, vs)
    decreases |vs|
  {
    if vs != [] {
      var prefix := vs[..|vs| - 1];
      var t' :| CombineFold(v, disk, t0, prefix) == Ok(t');
      CombineCollectsLanguages(v, disk, t0, prefix, t');
    }
  }

  /** Visit `x` is a fragment of `component` that is an object with a `lang` block. */
  predicate Defines(disk: map<Path, Json>, x: Visit, lang: string, component: string)
  {
    && x.Fragment?
    && ComponentName(x.name) == component
    && var doc := ReadTree(disk, x.file, x.isFile);
    && doc.Some? && doc.value.Obj? && lang in doc.value.fields
  }

  /** Reference definition: what the last visited fragment of `component` that defines
      `lang` stores for it, if there is one. */
  function LastStored(v: Variant, disk: map<Path, Json>, vs: seq<Visit>, lang: string, component: string): Option<Json>
    decreases |vs|
  {
    if vs == [] then None
    else
      var x := vs[|vs| - 1];
      if Defines(disk, x, lang, component)
      then Some(Stored(v, ReadTree(disk, x.file, x.isFile).value.fields, lang))
      else LastStored(v, disk, vs[..|vs| - 1], lang, component)
  }

  /** Each slot of the root holds what the last visited fragment stored there; slots no
      fragment touched keep their earlier value. An existing language record is extended,
      never reset, and a later fragment of the same component overwrites an earlier one. */
  lemma {:induction false} CombineLastWins(v: Variant, disk: map<Path, Json>, t0: Table, vs: seq<Visit>, t: Table)
    requires CombineFold(v, disk, t0, vs) == Ok(t)
    ensures forall lang, component ::
              Lookup(t, lang, component) ==
              (if LastStored(v, disk, vs, lang, component).Some? then LastStored(v, disk, vs, lang, component)
               else Lookup(t0, lang, component))
    decreases |vs|
  {
    if vs != [] {
      var prefix := vs[..|vs| - 1];
      var x := vs[|vs| - 1];
      var t' :| CombineFold(v, disk, t0, prefix) == Ok(t');
      CombineLastWins(v, disk, t0, prefix, t');
      if x.Fragment? {
        var doc := ReadTree(disk, x.file, x.isFile);
        if doc.Some? && doc.value.Obj? {
          forall lang, component
            ensures Lookup(t, lang, component) ==
              if LastStored(v, disk, vs, lang, component).Some? then LastStored(v, disk, vs, lang, component)
              else Lookup(t0, lang, component)
          {
          }
        }
      }
    }
  }

  /** `LastStored` finds a value exactly when some visited fragment defines the slot. */
  lemma {:induction false} LastStoredFound(v: Variant, disk: map<Path, Json>, vs: seq<Visit>, lang: string, component: string)
    ensures LastStored(v, disk, vs, lang, component).Some? <==>
      exists i :: 0 <= i < |vs| && Defines(disk, vs[i], lang, component)
    decreases |vs|
  {
    if vs != [] {
      var prefix := vs[..|vs| - 1];
      LastStoredFound(v, disk, prefix, lang, component);
      if exists i :: 0 <= i < |vs| && Defines(disk, vs[i], lang, component) {
        var i :| 0 <= i < |vs| && Defines(disk, vs[i], lang, component);
        if i < |prefix| {
          assert prefix[i] == vs[i];
        }
      }
      if exists i :: 0 <= i < |prefix| && Defines(disk, prefix[i], lang, component) {
        var i :| 0 <= i < |prefix| && Defines(disk, prefix[i], lang, component);
        assert vs[i] == prefix[i];
      }
    }
  }

  /** From an empty root: component `c` appears in the record of `lang` if and only if some
      visited fragment of `c` defines `lang`, and then it holds what the last such
      fragment stored. */
  lemma CombineExactComponents(v: Variant, disk: map<Path, Json>, vs: seq<Visit>, t: Table, lang: string, component: string)
    requires CombineFold(v, disk, map[], vs) == Ok(t)
    ensures (lang in t && component in t[lang]) <==>
      exists i :: 0 <= i < |vs| && Defines(disk, vs[i], lang, component)
    ensures lang in t && component in t[lang] ==>
      LastStored(v, disk, vs, lang, component) == Some(t[lang][component])
  {
    CombineLastWins(v, disk, map[], vs, t);
    LastStoredFound(v, disk, vs, lang, component);
    assert Lookup(map[], lang, component) == None;
  }

  /** Records present before the walk are reused: none of their components is lost. */
  lemma CombineNeverResets(v: Variant, disk: map<Path, Json>, t0: Table, vs: seq<Visit>, t: Table)
    requires CombineFold(v, disk, t0, vs) == Ok(t)
    ensures forall lang :: lang in t0 ==> lang in t && t0[lang].Keys <= t[lang].Keys
  {
    CombineLastWins(v, disk, t0, vs, t);
    CombineCollectsLanguages(v, disk, t0, vs, t);
    forall lang, component | lang in t0 && component in t0[lang]
      ensures lang in t && component in t[lang]
    {
      assert Lookup(t0, lang, component).Some?;
      assert Lookup(t, lang, component).Some?;
    }
  }

  // ---------------------------------------------------------------------------
  // Facts the imperative walks use

  /** One more entry of a listing: the walk of its first `i + 1` entries continues that of
      its first `i` with the entry's own visits, and a failure there ends the listing. */
  lemma CombineWalkStep(v: Variant, disk: map<Path, Json>, t0: Table, files: seq<Node>, path: Path, i: nat)
    requires i < |files|
    ensures CombineFold(v, disk, t0, Visits(files[..i + 1], path)) ==
      match CombineFold(v, disk, t0, Visits(files[..i], path))
      case Err(e) => Err(e)
      case Ok(t) => CombineFold(v, disk, t, EntryVisits(files[i], path))
    ensures CombineFold(v, disk, t0, Visits(files[..i + 1], path)).Err? ==>
      CombineFold(v, disk, t0, Visits(files, path)) == CombineFold(v, disk, t0, Visits(files[..i + 1], path))
  {
    VisitsStep(files, path, i);
    CombineFoldAppend(v, disk, t0, Visits(files[..i], path), EntryVisits(files[i], path));
    if CombineFold(v, disk, t0, Visits(files[..i + 1], path)).Err? {
      VisitsPrefix(files, path, i + 1);
      CombineFailureStops(v, disk, t0, Visits(files[..i + 1], path), Visits(files, path));
    }
  }

  /** Once a prefix of the visits fails, the whole run fails the same way. */
  lemma CombineFailureStops(v: Variant, disk: map<Path, Json>, t: Table, a: seq<Visit>, b: seq<Visit>)
    requires a <= b && CombineFold(v, disk, t, a).Err?
    ensures CombineFold(v, disk, t, b) == CombineFold(v, disk, t, a)
  {
    assert b == a + b[|a|..];
    CombineFoldAppend(v, disk, t, a, b[|a|..]);
  }

  /** Recording one more language of a fragment. */
  lemma AddLanguagesStep(v: Variant, t: Table, component: string, blocks: map<string, Json>,
                         langs: set<string>, lang: string)
    requires langs <= blocks.Keys && lang in langs
    ensures AddLanguages(v, t, component, blocks, blocks.Keys - (langs - {lang})) ==
      var t' := AddLanguages(v, t, component, blocks, blocks.Keys - langs);
      t'[lang := Record(t', lang)[component := Stored(v, blocks, lang)]]
  {
    assert blocks.Keys - (langs - {lang}) == (blocks.Keys - langs) + {lang};
  }

  /** Recording no language leaves the table as it was. */
  /** A readable fragment that the variant accepts adds its language blocks, none when it
      is not an object. */
  lemma FragmentStep(v: Variant, disk: map<Path, Json>, t: Table, file: Path, name: string, isFile: bool)
    requires ReadTree(disk, file, isFile).Some?
    requires v == JavaTree || ReadTree(disk, file, isFile).value.Obj?
    ensures CombineStep(v, disk, t, Fragment(file, name, isFile)) ==
      Ok(AddFragment(v, t, ComponentName(name), Members(ReadTree(disk, file, isFile).value)))
  {
    var blocks := Members(ReadTree(disk, file, isFile).value);
    if blocks == map[] {
      assert AddFragment(v, t, ComponentName(name), blocks) == t;
    }
  }

  /** Writing one more language file. */
  lemma OutputFilesStep(t: Table, lang: string, record: map<string, Json>)
    ensures OutputFiles(t[lang := record]) == OutputFiles(t)[OutputName(lang) := Obj(record)]
  {
    OutputNameInjective();
  }

  /** Exactly one output file per language of the root, holding that language's record. */
  lemma OutputFilesExact(t: Table)
    ensures forall l :: l in t ==> OutputName(l) in OutputFiles(t) && OutputFiles(t)[OutputName(l)] == Obj(t[l])
    ensures forall f :: f in OutputFiles(t) ==> exists l :: l in t && f == OutputName(l)
  {
    OutputNameInjective();
  }

  /** The table without the languages `langs`. */
  function Without(t: Table, langs: set<string>): Table
  {
    map l | l in t && l !in langs :: t[l]
  }

  lemma WithoutStep(t: Table, langs: set<string>, lang: string)
    requires lang in langs && lang in t
    ensures Without(t, langs - {lang}) == Without(t, langs)[lang := t[lang]]
  {
  }

  lemma WithoutAll(t: Table)
    ensures Without(t, t.Keys) == map[] && Without(t, {}) == t
  {
  }

  /** Running one visit is taking one step. */
  lemma CombineFoldSingle(v: Variant, disk: map<Path, Json>, t: Table, x: Visit)
    ensures CombineFold(v, disk, t, [x]) == CombineStep(v, disk, t, x)
  {
    assert [x][..0] == [];
  }

  lemma MergeUpdate(a: map<string, Json>, b: map<string, Json>, k: string, x: Json)
    ensures (a + b)[k := x] == a + b[k := x]
  {
  }

  /** The output loop of each `execute()`: one `<lang>.json` per language of the root,
      holding that language's record; the source files are untouched. */
  method WriteOutputs(t: Table, ws: Workspace)
    modifies ws
    ensures ws.sources == old(ws.sources)
    ensures ws.outputs == old(ws.outputs) + OutputFiles(t)
  {
    var written := ws.outputs;
    var langs := t.Keys;
    WithoutAll(t);
    while langs != {}
      invariant langs <= t.Keys
      invariant written == old(ws.outputs) + OutputFiles(Without(t, langs))
      invariant unchanged(ws)
      decreases langs
    {
      var lang :| lang in langs;
      WithoutStep(t, langs, lang);
      OutputFilesStep(Without(t, langs), lang, t[lang]);
      MergeUpdate(old(ws.outputs), OutputFiles(Without(t, langs)), OutputName(lang), Obj(t[lang]));
      written := written[OutputName(lang) := Obj(t[lang])];
      langs := langs - {lang};
    }
    ws.outputs := written;
  }
}
