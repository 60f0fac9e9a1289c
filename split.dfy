/** The split goal, stated on values: the entries the combined file holds for a
    component are written into the language block of that component's fragments. */
module Split {
  import opened Documents
  import opened Fragments
  import opened Rewrite

  /** One fragment after split, or why split fails on it. The component is the part of
      the file name before its first dot. Java iterates the fields of whatever node the
      combined file holds for it (none, unless it is an object); Kotlin casts it. */
  function SplitFragment(d: Dialect, language: string, combined: Json, file: Path, content: Option<Json>): (r: Result<Json>)
    ensures content.None? ==> r == Err(Unreadable(file))
    ensures content.Some? && !content.value.Obj? ==> r == Err(NotAnObject(file))
  {
    match content
    case None => Err(Unreadable(file))
    case Some(doc) =>
      if !doc.Obj? then Err(NotAnObject(file))
      else
        var contents := doc.fields;
        if language in contents && !contents[language].Obj? then Err(BlockNotAnObject(file, language))
        else
          var component := ComponentName(FileName(file));
          match Get(combined, component)
          case None => Err(ComponentMissing(file, component))
          case Some(newValues) =>
            if d == Kotlin && !newValues.Obj? then Err(ComponentNotAnObject(file, component))
            else Ok(Obj(contents[language := Obj(LanguageBlock(contents, language) + Members(newValues))]))
  }

  /** Split as the rewrite of one fragment file. */
  function Splitter(d: Dialect, language: string, combined: Json): Rewriter
  {
    (file, content) => SplitFragment(d, language, combined, file, content)
  }

  /** The whole goal: the combined file must be readable (and, in Kotlin, an object);
      then every fragment below the source directory is split into. A missing source
      directory lists as null: Java's `requireNonNull` fails on it, Kotlin skips it. */
  function SplitRun(d: Dialect, language: string, combined: Option<Json>, src: Option<Node>, disk: map<Path, Json>): (o: Outcome)
    ensures combined.None? ==> o == Outcome(disk, Some(CombinedUnreadable))
    ensures d == Kotlin && combined.Some? && !combined.value.Obj? ==> o == Outcome(disk, Some(CombinedNotAnObject))
    ensures src.None? && combined.Some? && (d == Kotlin ==> combined.value.Obj?) ==>
      o == if d == Java then Outcome(disk, Some(ListingUnavailable([]))) else Outcome(disk, None)
  {
    if combined.None? then Outcome(disk, Some(CombinedUnreadable))
    else if d == Kotlin && !combined.value.Obj? then Outcome(disk, Some(CombinedNotAnObject))
    else
      RewriteFoldSingle(d, Splitter(d, language, combined.value), disk, Unlisted([]));
      RewriteFold(d, Splitter(d, language, combined.value), disk, RootVisits(src))
  }

  /** The field loop of each `splitJsonFile`: each entry of `newValues` is set in
      `current`, replacing any entry under the same key. */
  method SetFields(current: map<string, Json>, newValues: map<string, Json>) returns (merged: map<string, Json>)
    ensures merged.Keys == current.Keys + newValues.Keys
    ensures forall k :: k in newValues ==> merged[k] == newValues[k]
    ensures forall k :: k in current && k !in newValues ==> merged[k] == current[k]
  {
    merged := current;
    var keys := newValues.Keys;
    while keys != {}
      invariant keys <= newValues.Keys
      invariant merged == current + Restrict(newValues, newValues.Keys - keys)
      decreases keys
    {
      var key :| key in keys;
      assert current + Restrict(newValues, newValues.Keys - (keys - {key})) ==
             (current + Restrict(newValues, newValues.Keys - keys))[key := newValues[key]];
      merged := merged[key := newValues[key]];
      keys := keys - {key};
    }
    assert Restrict(newValues, newValues.Keys - keys) == newValues;
  }

  // ---------------------------------------------------------------------------
  // The fragment

  /** What split does to a fragment it accepts: the language block becomes the old block
      with every entry of the component's object set over it, and every other language
      block is unchanged. It fails exactly in the listed cases; in particular, a
      component the combined file lacks always fails. */
  lemma SplitFragmentEffect(d: Dialect, language: string, combined: Json, file: Path, contents: map<string, Json>)
    ensures var r := SplitFragment(d, language, combined, file, Some(Obj(contents)));
      var newValues := Get(combined, ComponentName(FileName(file)));
      && (r.Ok? <==>
            && (language in contents ==> contents[language].Obj?)
            && newValues.Some?
            && (d == Kotlin ==> newValues.value.Obj?))
      && ((language in contents ==> contents[language].Obj?) && newValues.None? ==>
            r == Err(ComponentMissing(file, ComponentName(FileName(file)))))
      && (r.Ok? ==>
            var block := Members(r.value.fields[language]);
            && r.value.Obj?
            && r.value.fields.Keys == contents.Keys + {language}
            && r.value.fields[language].Obj?
            && block.Keys == LanguageBlock(contents, language).Keys + Members(newValues.value).Keys
            && (forall k :: k in Members(newValues.value) ==> block[k] == Members(newValues.value)[k])
            && (forall k :: k in LanguageBlock(contents, language) && k !in Members(newValues.value) ==>
                  block[k] == LanguageBlock(contents, language)[k])
            && forall l :: l in contents && l != language ==> r.value.fields[l] == contents[l])
  {
  }

  /** Splitting the same combined file into a fragment twice changes nothing the second
      time. */
  lemma SplitFragmentIdempotent(d: Dialect, language: string, combined: Json, file: Path, doc: Json)
    requires SplitFragment(d, language, combined, file, Some(doc)).Ok?
    ensures var split := SplitFragment(d, language, combined, file, Some(doc)).value;
      SplitFragment(d, language, combined, file, Some(split)) == Ok(split)
  {
    var contents := doc.fields;
    var newValues := Get(combined, ComponentName(FileName(file))).value;
    var block := LanguageBlock(contents, language) + Members(newValues);
    var contents' := contents[language := Obj(block)];
    assert LanguageBlock(contents', language) == block;
    assert block + Members(newValues) == block;
    assert contents'[language := Obj(block)] == contents';
  }

  /** Split fails on an unreadable fragment and leaves its own result alone. */
  lemma SplitterIdempotent(d: Dialect, language: string, combined: Json)
    ensures Idempotent(Splitter(d, language, combined))
  {
    var f := Splitter(d, language, combined);
    forall file, doc | f(file, Some(doc)).Ok?
      ensures f(file, Some(f(file, Some(doc)).value)) == f(file, Some(doc))
    {
      SplitFragmentIdempotent(d, language, combined, file, doc);
    }
  }

  // ---------------------------------------------------------------------------
  // The goal

  /** Split is idempotent: running it again with the same combined file succeeds and
      changes nothing. */
  lemma SplitRunIdempotent(d: Dialect, language: string, combined: Option<Json>, src: Option<Node>, disk: map<Path, Json>)
    requires SplitRun(d, language, combined, src, disk).failure.None?
    ensures var disk' := SplitRun(d, language, combined, src, disk).disk;
      SplitRun(d, language, combined, src, disk') == Outcome(disk', None)
  {
    SplitterIdempotent(d, language, combined.value);
    RewriteIdempotent(d, Splitter(d, language, combined.value), disk, RootVisits(src));
  }

  /** A successful split found, in the combined file, an entry for the component of
      every fragment it visited. */
  lemma SplitNeedsEveryComponent(d: Dialect, language: string, combined: Option<Json>, src: Option<Node>,
                                 disk: map<Path, Json>, x: Visit)
    requires SplitRun(d, language, combined, src, disk).failure.None?
    requires x in RootVisits(src) && x.Fragment?
    ensures combined.Some? && Get(combined.value, ComponentName(x.name)).Some?
  {
    var vs := RootVisits(src);
    var i :| 0 <= i < |vs| && vs[i] == x;
    RewriteSucceeded(d, Splitter(d, language, combined.value), disk, vs, i);
    var before := RewriteFold(d, Splitter(d, language, combined.value), disk, vs[..i]);
    var content := ReadTree(before.disk, x.file, x.isFile);
    assert content.Some? && content.value.Obj?;
    SplitFragmentEffect(d, language, combined.value, x.file, content.value.fields);
    FragmentPathEndsWithName(src, x);
  }
}
