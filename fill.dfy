/** The fill goal, stated on values: every key of the source language that the target
    language lacks gets a placeholder `<target>:<source text>`. */
module Fill {
  import opened Documents
  import opened Fragments
  import opened Rewrite

  /** The placeholder written for a missing key. */
  function Placeholder(targetLanguage: string, v: Json): Json
  {
    Str(targetLanguage + ":" + AsText(v))
  }

  /** The target block after fill: the target's own entries, and a placeholder for every
      source key the target lacks. */
  function FillBlock(source: map<string, Json>, target: map<string, Json>, targetLanguage: string): (filled: map<string, Json>)
    ensures filled.Keys == target.Keys + source.Keys
    ensures forall k :: k in target ==> filled[k] == target[k]
    ensures forall k :: k in source && k !in target ==> filled[k] == Placeholder(targetLanguage, source[k])
  {
    map k | k in target.Keys + source.Keys ::
      if k in target then target[k] else Placeholder(targetLanguage, source[k])
  }

  /** One fragment after fill, or why fill fails on it. The checks come in the order the
      source makes them: Kotlin casts the source block first; Java casts the target block
      and only then dereferences the source block, which may be any node. */
  function FillFragment(d: Dialect, sourceLanguage: string, targetLanguage: string,
                        file: Path, content: Option<Json>): (r: Result<Json>)
    ensures content.None? ==> r == Err(Unreadable(file))
    ensures content.Some? && !content.value.Obj? ==> r == Err(NotAnObject(file))
  {
    match content
    case None => Err(Unreadable(file))
    case Some(doc) =>
      if !doc.Obj? then Err(NotAnObject(file))
      else
        var contents := doc.fields;
        if d == Kotlin && sourceLanguage !in contents then Err(MissingBlock(file, sourceLanguage))
        else if d == Kotlin && !contents[sourceLanguage].Obj? then Err(BlockNotAnObject(file, sourceLanguage))
        else if targetLanguage in contents && !contents[targetLanguage].Obj? then Err(BlockNotAnObject(file, targetLanguage))
        else if sourceLanguage !in contents then Err(MissingBlock(file, sourceLanguage))
        else
          var filled := FillBlock(Members(contents[sourceLanguage]), LanguageBlock(contents, targetLanguage), targetLanguage);
          Ok(Obj(contents[targetLanguage := Obj(filled)]))
  }

  /** Fill as the rewrite of one fragment file. */
  function Filler(d: Dialect, sourceLanguage: string, targetLanguage: string): Rewriter
  {
    (file, content) => FillFragment(d, sourceLanguage, targetLanguage, file, content)
  }

  /** The source files after fill has visited `vs`. */
  function FillFold(d: Dialect, sourceLanguage: string, targetLanguage: string,
                    disk: map<Path, Json>, vs: seq<Visit>): Outcome
  {
    RewriteFold(d, Filler(d, sourceLanguage, targetLanguage), disk, vs)
  }

  /** The whole goal: Java skips a missing source directory before walking; Kotlin's walk
      skips it by itself, since its listing is null. */
  function FillRun(d: Dialect, sourceLanguage: string, targetLanguage: string,
                   src: Option<Node>, disk: map<Path, Json>): (o: Outcome)
    ensures src.None? ==> o == Outcome(disk, None)
  {
    RewriteFoldSingle(d, Filler(d, sourceLanguage, targetLanguage), disk, Unlisted([]));
    if d == Java && src.None? then Outcome(disk, None)
    else FillFold(d, sourceLanguage, targetLanguage, disk, RootVisits(src))
  }

  /** The key loop of each `fillMissingValues`: every source key the target lacks gets
      its placeholder. */
  method AddPlaceholders(source: map<string, Json>, target: map<string, Json>, targetLanguage: string)
    returns (filled: map<string, Json>)
    ensures filled == FillBlock(source, target, targetLanguage)
  {
    filled := target;
    var keys := source.Keys;
    RestrictAll(source);
    assert FillBlock(map[], target, targetLanguage) == target;
    while keys != {}
      invariant keys <= source.Keys
      invariant filled == FillBlock(Restrict(source, source.Keys - keys), target, targetLanguage)
      decreases keys
    {
      var key :| key in keys;
      FillBlockStep(source, target, targetLanguage, source.Keys - keys, key);
      assert source.Keys - (keys - {key}) == (source.Keys - keys) + {key};
      if key !in filled {
        filled := filled[key := Placeholder(targetLanguage, source[key])];
      }
      keys := keys - {key};
    }
    assert source.Keys - keys == source.Keys;
  }

  // ---------------------------------------------------------------------------
  // The block

  /** A second fill of the same block adds nothing. */
  lemma FillBlockIdempotent(source: map<string, Json>, target: map<string, Json>, targetLanguage: string)
    ensures FillBlock(source, FillBlock(source, target, targetLanguage), targetLanguage)
            == FillBlock(source, target, targetLanguage)
  {
  }

  /** One more source key: fill adds its placeholder unless the target has the key. */
  lemma FillBlockInsert(source: map<string, Json>, target: map<string, Json>, targetLanguage: string,
                        k: string, v: Json)
    requires k !in source
    ensures var partial := FillBlock(source, target, targetLanguage);
      FillBlock(source[k := v], target, targetLanguage) ==
        if k in partial then partial else partial[k := Placeholder(targetLanguage, v)]
  {
    var partial := FillBlock(source, target, targetLanguage);
    var next := FillBlock(source[k := v], target, targetLanguage);
    var expected := if k in partial then partial else partial[k := Placeholder(targetLanguage, v)];
    assert next.Keys == expected.Keys;
    forall key | key in next ensures next[key] == expected[key] {
    }
  }

  /** Filling the keys `done` of the source, then key `k`, is filling `done + {k}`. */
  lemma FillBlockStep(source: map<string, Json>, target: map<string, Json>, targetLanguage: string,
                      done: set<string>, k: string)
    requires k in source && k !in done
    ensures var partial := FillBlock(Restrict(source, done), target, targetLanguage);
      FillBlock(Restrict(source, done + {k}), target, targetLanguage) ==
        if k in partial then partial else partial[k := Placeholder(targetLanguage, source[k])]
  {
    var before := Restrict(source, done);
    assert Restrict(source, done + {k}) == before[k := source[k]];
    FillBlockInsert(before, target, targetLanguage, k, source[k]);
  }


  // ---------------------------------------------------------------------------
  // The fragment

  /** What fill does to a fragment it accepts: the target block is the filled block, and
      every other language block is unchanged. It fails exactly in the listed cases; in
      particular a fragment without the source language always fails. */
  lemma FillFragmentEffect(d: Dialect, sourceLanguage: string, targetLanguage: string,
                           file: Path, contents: map<string, Json>)
    ensures var r := FillFragment(d, sourceLanguage, targetLanguage, file, Some(Obj(contents)));
      && (r.Ok? <==>
            && sourceLanguage in contents
            && (d == Kotlin ==> contents[sourceLanguage].Obj?)
            && (targetLanguage in contents ==> contents[targetLanguage].Obj?))
      && (sourceLanguage !in contents ==> r.Err?)
      && (r.Ok? ==>
            && r.value.Obj?
            && r.value.fields.Keys == contents.Keys + {targetLanguage}
            && r.value.fields[targetLanguage] ==
                 Obj(FillBlock(Members(contents[sourceLanguage]), LanguageBlock(contents, targetLanguage), targetLanguage))
            && forall l :: l in contents && l != targetLanguage ==> r.value.fields[l] == contents[l])
  {
  }

  /** Filling an already filled fragment changes nothing. */
  lemma FillFragmentIdempotent(d: Dialect, sourceLanguage: string, targetLanguage: string,
                               file: Path, doc: Json)
    requires FillFragment(d, sourceLanguage, targetLanguage, file, Some(doc)).Ok?
    ensures var filled := FillFragment(d, sourceLanguage, targetLanguage, file, Some(doc)).value;
      FillFragment(d, sourceLanguage, targetLanguage, file, Some(filled)) == Ok(filled)
  {
    var contents := doc.fields;
    var source := Members(contents[sourceLanguage]);
    var block := FillBlock(source, LanguageBlock(contents, targetLanguage), targetLanguage);
    var contents' := contents[targetLanguage := Obj(block)];
    if sourceLanguage == targetLanguage {
      assert LanguageBlock(contents, targetLanguage) == source;
      assert block == source;
      assert Members(contents'[sourceLanguage]) == block;
    } else {
      assert contents'[sourceLanguage] == contents[sourceLanguage];
    }
    assert LanguageBlock(contents', targetLanguage) == block;
    FillBlockIdempotent(source, LanguageBlock(contents, targetLanguage), targetLanguage);
    assert contents'[targetLanguage := Obj(block)] == contents';
  }

  /** With equal source and target languages the source and target blocks are the same
      node, and fill puts nothing into it: the fragment is returned as it was. */
  lemma FillSameLanguageUnchanged(d: Dialect, language: string, file: Path, doc: Json)
    requires doc.Obj? && language in doc.fields && doc.fields[language].Obj?
    ensures FillFragment(d, language, language, file, Some(doc)) == Ok(doc)
  {
    var block := doc.fields[language].fields;
    assert LanguageBlock(doc.fields, language) == block;
    assert FillBlock(block, block, language) == block;
    assert doc.fields[language := Obj(block)] == doc.fields;
  }

  /** Fill fails on an unreadable fragment and leaves its own result alone. */
  lemma FillerIdempotent(d: Dialect, sourceLanguage: string, targetLanguage: string)
    ensures Idempotent(Filler(d, sourceLanguage, targetLanguage))
  {
    var f := Filler(d, sourceLanguage, targetLanguage);
    forall file, doc | f(file, Some(doc)).Ok?
      ensures f(file, Some(f(file, Some(doc)).value)) == f(file, Some(doc))
    {
      FillFragmentIdempotent(d, sourceLanguage, targetLanguage, file, doc);
    }
  }

  // ---------------------------------------------------------------------------
  // The goal

  /** Fill is idempotent: running it again on the files it wrote succeeds and changes
      nothing. */
  lemma FillRunIdempotent(d: Dialect, sourceLanguage: string, targetLanguage: string,
                          src: Option<Node>, disk: map<Path, Json>)
    requires FillRun(d, sourceLanguage, targetLanguage, src, disk).failure.None?
    ensures var disk' := FillRun(d, sourceLanguage, targetLanguage, src, disk).disk;
      FillRun(d, sourceLanguage, targetLanguage, src, disk') == Outcome(disk', None)
  {
    if !(d == Java && src.None?) {
      FillerIdempotent(d, sourceLanguage, targetLanguage);
      RewriteIdempotent(d, Filler(d, sourceLanguage, targetLanguage), disk, RootVisits(src));
    }
  }
}
