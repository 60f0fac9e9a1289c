/** Combine followed by split: splitting a language of the combined file back into the
    fragments it came from leaves every fragment as it was. */
module RoundTrip {
  import opened Documents
  import opened Fragments
  import opened Combine
  import opened Rewrite
  import opened Split

  /** Every fragment the walk visits is a readable object with an object block for
      `lang`, and no two fragments share a component. */
  predicate WellFormed(disk: map<Path, Json>, vs: seq<Visit>, lang: string)
  {
    && (forall i :: 0 <= i < |vs| && vs[i].Fragment? ==>
          var doc := ReadTree(disk, vs[i].file, vs[i].isFile);
          doc.Some? && doc.value.Obj? && lang in doc.value.fields && doc.value.fields[lang].Obj?)
    && (forall i, j :: 0 <= i < j < |vs| && vs[i].Fragment? && vs[j].Fragment? ==>
          ComponentName(vs[i].name) != ComponentName(vs[j].name))
  }

  /** A slot defined by one visited fragment only holds what that fragment stored. */
  lemma {:induction false} LastStoredUnique(v: Variant, disk: map<Path, Json>, vs: seq<Visit>,
                                            lang: string, component: string, i: nat)
    requires i < |vs| && Defines(disk, vs[i], lang, component)
    requires forall j :: 0 <= j < |vs| && Defines(disk, vs[j], lang, component) ==> j == i
    ensures LastStored(v, disk, vs, lang, component) ==
      Some(Stored(v, ReadTree(disk, vs[i].file, vs[i].isFile).value.fields, lang))
    decreases |vs|
  {
    var prefix := vs[..|vs| - 1];
    if i < |vs| - 1 {
      assert prefix[i] == vs[i];
      forall j | 0 <= j < |prefix| && Defines(disk, prefix[j], lang, component) ensures j == i {
        assert prefix[j] == vs[j];
      }
      LastStoredUnique(v, disk, prefix, lang, component, i);
    }
  }

  /** The untyped Java combine only succeeds on walks that met no null listing. */
  lemma {:induction false} UntypedCombineListsEverything(disk: map<Path, Json>, t0: Table, vs: seq<Visit>)
    requires CombineFold(JavaUntyped, disk, t0, vs).Ok?
    ensures forall i :: 0 <= i < |vs| ==> vs[i].Fragment?
    decreases |vs|
  {
    if vs != [] {
      var prefix := vs[..|vs| - 1];
      assert CombineFold(JavaUntyped, disk, t0, prefix).Ok?;
      UntypedCombineListsEverything(disk, t0, prefix);
      assert forall i :: 0 <= i < |prefix| ==> prefix[i] == vs[i];
    }
  }

  /** In a well-formed walk, fragment `i` is the only one that defines its component. */
  lemma OnlyDefiner(disk: map<Path, Json>, vs: seq<Visit>, lang: string, i: nat)
    requires WellFormed(disk, vs, lang)
    requires i < |vs| && vs[i].Fragment?
    ensures Defines(disk, vs[i], lang, ComponentName(vs[i].name))
    ensures forall j :: 0 <= j < |vs| && Defines(disk, vs[j], lang, ComponentName(vs[i].name)) ==> j == i
  {
  }

  /** One fragment of the round trip: the record built by combine holds its own block
      under its component, so splitting into it gives it back unchanged. */
  lemma FragmentSettled(v: Variant, d: Dialect, src: Option<Node>, disk: map<Path, Json>, t: Table,
                        lang: string, i: nat)
    requires v != JavaTree
    requires CombineRun(v, src, disk, true) == Ok(t)
    requires WellFormed(disk, RootVisits(src), lang)
    requires i < |RootVisits(src)| && RootVisits(src)[i].Fragment?
    ensures Settled(Splitter(d, lang, Obj(Record(t, lang))), disk, RootVisits(src)[i])
  {
    var vs := RootVisits(src);
    var combined := Obj(Record(t, lang));
    var x := vs[i];
    var c := ComponentName(x.name);
    var doc := ReadTree(disk, x.file, x.isFile).value;
    OnlyDefiner(disk, vs, lang, i);
    LastStoredUnique(v, disk, vs, lang, c, i);
    CombineExactComponents(v, disk, vs, t, lang, c);
    FragmentPathEndsWithName(src, x);
    assert Get(combined, c) == Some(doc.fields[lang]);
    var block := doc.fields[lang].fields;
    assert LanguageBlock(doc.fields, lang) == block;
    assert block + block == block;
    assert doc.fields[lang := Obj(block)] == doc.fields;
  }

  /** The round trip: when the Kotlin or untyped Java combine succeeds on well-formed
      fragments, splitting the record it built for `lang` back into the same tree
      succeeds and changes no file. Java's split needs every directory to be listable;
      the untyped combine has already checked that, the Kotlin combine has not. */
  lemma CombineThenSplit(v: Variant, d: Dialect, src: Option<Node>, disk: map<Path, Json>, t: Table, lang: string)
    requires v != JavaTree
    requires CombineRun(v, src, disk, true) == Ok(t)
    requires WellFormed(disk, RootVisits(src), lang)
    requires d == Java ==> forall i :: 0 <= i < |RootVisits(src)| ==> RootVisits(src)[i].Fragment?
    ensures SplitRun(d, lang, Some(Obj(Record(t, lang))), src, disk) == Outcome(disk, None)
  {
    var vs := RootVisits(src);
    var splitter := Splitter(d, lang, Obj(Record(t, lang)));
    forall i | 0 <= i < |vs|
      ensures Settled(splitter, disk, vs[i]) && (vs[i].Unlisted? ==> d == Kotlin)
    {
      if vs[i].Fragment? {
        FragmentSettled(v, d, src, disk, t, lang, i);
      }
    }
    RewriteOverSettled(d, splitter, disk, vs);
  }


  /** After the untyped Java combine, Java's split restores the fragments with no
      further condition: the combine has already listed every directory. */
  lemma UntypedCombineThenJavaSplit(src: Option<Node>, disk: map<Path, Json>, t: Table, lang: string)
    requires CombineRun(JavaUntyped, src, disk, true) == Ok(t)
    requires WellFormed(disk, RootVisits(src), lang)
    ensures SplitRun(Java, lang, Some(Obj(Record(t, lang))), src, disk) == Outcome(disk, None)
  {
    UntypedCombineListsEverything(disk, map[], RootVisits(src));
    CombineThenSplit(JavaUntyped, Java, src, disk, t, lang);
  }

  // ---------------------------------------------------------------------------
  // One fragment `a.i18n.json` holding `{"de": {"x": "1"}}`

  const FragmentFile: Path := ["a.i18n.json"]
  const Block: Json := Obj(map["x" := Str("1")])
  const Tree: Option<Node> := Some(Dir("public", true, [File("a.i18n.json")]))
  const Disk: map<Path, Json> := map[FragmentFile := Obj(map["de" := Block])]

  lemma OneFragmentWalk()
    ensures RootVisits(Tree) == [Fragment(FragmentFile, "a.i18n.json", true)]
    ensures ComponentName("a.i18n.json") == "a"
  {
    var f := File("a.i18n.json");
    assert IsFragmentName(f.name) by {
      assert f.name[|f.name| - |Suffix|..] == Suffix;
    }
    assert [] + [f.name] == FragmentFile;
    assert EntryVisits(f, []) == [Fragment(FragmentFile, "a.i18n.json", true)];
    assert [f][..0] == [];
    assert Visits([f], []) == Visits([], []) + EntryVisits(f, []);
    assert "a.i18n.json"[1..][0] == '.';
  }

  /** Combine of the one-fragment tree adds that fragment to an empty root. */
  lemma OneFragmentCombine(v: Variant)
    ensures CombineRun(v, Tree, Disk, true) == Ok(AddFragment(v, map[], "a", map["de" := Block]))
  {
    OneFragmentWalk();
    CombineFoldSingle(v, Disk, map[], Fragment(FragmentFile, "a.i18n.json", true));
  }

  /** Recording a one-language fragment into an empty table. */
  lemma AddFragmentToEmpty(v: Variant, component: string, lang: string, block: Json)
    ensures AddFragment(v, map[], component, map[lang := block]) ==
      map[lang := map[component := Stored(v, map[lang := block], lang)]]
  {
    var blocks := map[lang := block];
    assert blocks.Keys == {lang};
    assert Record(map[], lang) == map[];
  }

  lemma JavaCombineResult()
    ensures CombineRun(JavaTree, Tree, Disk, true) == Ok(map["de" := map["a" := Null]])
  {
    OneFragmentCombine(JavaTree);
    AddFragmentToEmpty(JavaTree, "a", "de", Block);
    assert Get(Block, "de") == None;
  }

  lemma NullOutput()
    ensures var files := OutputFiles(map["de" := map["a" := Null]]);
      OutputName("de") in files && files[OutputName("de")] == Obj(map["a" := Null])
  {
    OutputFilesExact(map["de" := map["a" := Null]]);
  }

  /** The combined file `{"a": null}` cannot be split back by the Kotlin goal. */
  lemma KotlinSplitRejectsNull()
    ensures SplitRun(Kotlin, "de", Some(Obj(map["a" := Null])), Tree, Disk) ==
      Outcome(Disk, Some(ComponentNotAnObject(FragmentFile, "a")))
  {
    OneFragmentWalk();
    assert FileName(FragmentFile) == "a.i18n.json";
    RewriteFoldSingle(Kotlin, Splitter(Kotlin, "de", Obj(map["a" := Null])), Disk, Fragment(FragmentFile, "a.i18n.json", true));
  }

  /** As written, the typed Java combine stores `block.get("de")` of a block that has no
      key "de": the combined `de.json` maps component `a` to null, and splitting it back
      with the Kotlin goal fails on the cast of that null. */
  lemma JavaCombineStoresNull()
    ensures CombineRun(JavaTree, Tree, Disk, true) == Ok(map["de" := map["a" := Null]])
    ensures var files := OutputFiles(map["de" := map["a" := Null]]);
      OutputName("de") in files && files[OutputName("de")] == Obj(map["a" := Null])
    ensures SplitRun(Kotlin, "de", Some(Obj(map["a" := Null])), Tree, Disk) ==
      Outcome(Disk, Some(ComponentNotAnObject(FragmentFile, "a")))
  {
    JavaCombineResult();
    NullOutput();
    KotlinSplitRejectsNull();
  }

  lemma BlockStoringCombineResult(v: Variant)
    requires v != JavaTree
    ensures CombineRun(v, Tree, Disk, true) == Ok(map["de" := map["a" := Block]])
  {
    OneFragmentCombine(v);
    AddFragmentToEmpty(v, "a", "de", Block);
  }

  /** The one-fragment tree meets the round trip's conditions. */
  lemma OneFragmentWellFormed()
    ensures WellFormed(Disk, RootVisits(Tree), "de")
    ensures forall i :: 0 <= i < |RootVisits(Tree)| ==> RootVisits(Tree)[i].Fragment?
  {
    OneFragmentWalk();
    assert ReadTree(Disk, FragmentFile, true) == Some(Obj(map["de" := Block]));
  }

  lemma BlockSplitsBack(d: Dialect)
    ensures SplitRun(d, "de", Some(Obj(map["a" := Block])), Tree, Disk) == Outcome(Disk, None)
  {
    var t := map["de" := map["a" := Block]];
    BlockStoringCombineResult(KotlinTree);
    OneFragmentWellFormed();
    CombineThenSplit(KotlinTree, d, Tree, Disk, t, "de");
    assert Record(t, "de") == map["a" := Block];
  }


  /** Storing the whole block, as the Kotlin and untyped Java goals do, puts the
      translations into `de.json`, and splitting that back leaves the fragment as it was. */
  lemma BlockStoringCombineKeepsTranslations(v: Variant, d: Dialect)
    requires v != JavaTree
    ensures CombineRun(v, Tree, Disk, true) == Ok(map["de" := map["a" := Block]])
    ensures SplitRun(d, "de", Some(Obj(map["a" := Block])), Tree, Disk) == Outcome(Disk, None)
  {
    BlockStoringCombineResult(v);
    BlockSplitsBack(d);
  }
}
