# i18n-maven-plugin in Dafny

A model of the three goals of the terrestris i18n Maven plugin, with proofs about them.
Each goal walks the source tree `src/main/resources/public` and finds the JSON
"fragment" files, whose names end in `.i18n.json`. A fragment belongs to one component,
the part of its file name before the first dot. It holds one block per language.

- **combine** folds every fragment into one record per language,
  `language -> component -> value`. It writes one `<language>.json` file per language.
  There are three implementations: typed Java (`I18nCombineMojo.java`), Kotlin
  (`I18nCombineMojo.kt`) and the older untyped Java goal (`I18nMojo.java`).
- **fill** adds a placeholder `<target>:<text of the source value>` for every key of
  the source language that the target language lacks. It rewrites each fragment in place.
  There is a Java and a Kotlin implementation.
- **split** takes one language of a combined file. For every fragment, it sets each
  entry the combined file holds for the fragment's component into that fragment's
  language block. There is a Java and a Kotlin implementation.

How the model is built:

- The source tree is a `Node` datatype. A directory whose listing is null is marked
  `listable == false`. Fragment contents live in a map from paths to JSON values. A path
  missing from that map is a file that does not parse.
- `Fragments.Visits` is the reference walk: the sequence of fragment reads and null
  listings, in listing order. A directory is walked first. If its name also ends in
  `.i18n.json`, it is then read like a fragment, and that read fails.
- Each goal is a fold over that walk (`Combine.CombineRun`, `Fill.FillRun`,
  `Split.SplitRun`). The first failure stops the fold, and files rewritten before it
  stay rewritten.
- Each source class is a Dafny class whose recursive methods and loops mirror the
  source. Each method is proved against its fold.
- The files a goal reads and writes are the fields of a `Workspace` object: `sources`
  for the fragments and `outputs` for the combined files.
- The Java and Kotlin variants differ in their failure cases, and the model keeps those
  differences:
  - Java's `requireNonNull` fails on a null listing; Kotlin's `?: return` skips it.
  - Java's fill skips a missing source directory; Java's split fails on one.
  - Kotlin casts blocks with `as ObjectNode`. Java casts some of them and iterates
    `fields()` of the others, which is empty for anything but an object.

## Model

| member | source | states |
|---|---|---|
| Fragments.ComponentOfFragment | src/main/java/de/terrestris/maven/i18n/I18nCombineMojo.java:86 | for a name ending in `.i18n.json`, both Java's `split("\\.")` and Kotlin's split-and-drop-trailing-empties give a non-empty array whose first element is the part of the name before the first dot |
| Fragments.ComponentName | src/main/kotlin/de/terrestris/maven/i18n/I18nCombineMojo.kt:73 | the component is a prefix of the name that holds no dot and is followed by a dot, unless it is the whole name |
| Fragments.SplitOnDotsPieces | src/main/java/de/terrestris/maven/i18n/I18nSplitMojo.java:84 | the first piece of splitting on dots is the component name, and no piece holds a dot |
| Fragments.SplitJoinRoundTrip | src/main/kotlin/de/terrestris/maven/i18n/I18nSplitMojo.kt:76 | joining the pieces of a split with dots gives back the file name |
| Fragments.DropTrailingEmpty | src/main/kotlin/de/terrestris/maven/i18n/I18nSplitMojo.kt:76 | `dropLastWhile { it.isEmpty() }` keeps a prefix, ends in a non-empty piece, and drops only empty pieces |
| Fragments.FileName | src/main/java/de/terrestris/maven/i18n/I18nSplitMojo.java:84 | `getName()` of a path `dir + [n]` is `n` |
| Fragments.WalkReachesEveryFragment | src/main/java/de/terrestris/maven/i18n/I18nCombineMojo.java:80-85 | completeness of the walk: every entry below listable directories whose name ends in `.i18n.json` is read under its path, and every unlistable directory there is reported |
| Fragments.WalkReadsOnlyFragments | src/main/java/de/terrestris/maven/i18n/I18nCombineMojo.java:81-85 | soundness of the walk: only entries with the fragment suffix, reached through listable directories, are read, each under its own path |
| Fragments.FragmentPathEndsWithName | src/main/java/de/terrestris/maven/i18n/I18nSplitMojo.java:73-84 | every fragment is read under a path that ends with its own file name |
| Fragments.ReadTree | src/main/java/de/terrestris/maven/i18n/I18nCombineMojo.java:85 | `readTree(file)` gives the parsed content exactly for a regular file that parses, and nothing otherwise |
| Fragments.JavaSplitOnDots | src/main/java/de/terrestris/maven/i18n/I18nSplitMojo.java:84 | Java's `split("\\.")` gives a dot-free name back whole, no piece holds a dot, and a non-empty result starts with the component name |
| Fragments.KotlinSplitOnDots | src/main/kotlin/de/terrestris/maven/i18n/I18nSplitMojo.kt:76 | Kotlin's split-and-drop-trailing-empties: no piece holds a dot, and a non-empty result starts with the component name and ends in a non-empty piece |
| Fragments.Visits | src/main/java/de/terrestris/maven/i18n/I18nCombineMojo.java:80-84 | the walk of a listing reads every entry whose name has the fragment suffix, under its own path |
| Fragments.EntryVisits | src/main/java/de/terrestris/maven/i18n/I18nCombineMojo.java:81-84 | the two checks of one entry are not exclusive: a directory is walked first, then an entry with the suffix is read last, even when it is a directory; a plain file without the suffix gives nothing |
| Documents.AsText | src/main/java/de/terrestris/maven/i18n/I18nFillMojo.java:94 | `asText()` gives a string's own text and a number's literal, and the empty text exactly for containers and empty scalars |
| Documents.Get | src/main/java/de/terrestris/maven/i18n/I18nCombineMojo.java:94 | `JsonNode.get(key)` yields the member only for an object holding that key, and nothing otherwise |
| Documents.Members | src/main/java/de/terrestris/maven/i18n/I18nFillMojo.java:91 | `fields()` iterates the members of an object and nothing for any other node |
| Documents.LanguageBlock | src/main/java/de/terrestris/maven/i18n/I18nSplitMojo.java:79-83 | an absent language block is created empty; a present object block is used as it is |
| Combine.Stored | src/main/java/de/terrestris/maven/i18n/I18nCombineMojo.java:94 | the value stored for a language: the Kotlin and untyped goals store the whole block (`I18nCombineMojo.kt:79`, `I18nMojo.java:63`); the typed Java goal stores the block's own entry named by the language, and JSON null when there is none |
| Combine.AddFragment | src/main/kotlin/de/terrestris/maven/i18n/I18nCombineMojo.kt:74-80 | recording one fragment adds its languages to the root and sets exactly the slots `root[lang][component]` of its languages; every other slot keeps its value |
| Combine.CombineStep | src/main/java/de/terrestris/maven/i18n/I18nCombineMojo.java:80-95 | one visit fails exactly on a null listing (except in Kotlin), an unreadable fragment, or a non-object fragment (except in typed Java); a successful step never drops a language |
| Combine.CombineRun | src/main/java/de/terrestris/maven/i18n/I18nCombineMojo.java:58-66 | an output directory that cannot be created fails first; a missing source directory gives an empty root, except in the untyped goal, whose walk fails on the null listing; otherwise the root is the fold of the walk |
| Combine.CombineCollectsLanguages | src/main/java/de/terrestris/maven/i18n/I18nCombineMojo.java:87-92 | after the walk, the root's languages are those it started with plus every language key of every visited object fragment |
| Combine.CombineLastWins | src/main/kotlin/de/terrestris/maven/i18n/I18nCombineMojo.kt:74-80 | each slot `root[lang][component]` holds what the last visited fragment of that component stored for that language; slots no fragment touched keep their earlier value |
| Combine.LastStoredFound | src/main/kotlin/de/terrestris/maven/i18n/I18nCombineMojo.kt:74-80 | a stored value for a slot exists exactly when some visited fragment of that component defines that language |
| Combine.CombineExactComponents | src/main/java/de/terrestris/maven/i18n/I18nMojo.java:58-64 | from an empty root, a component appears in a language's record if and only if some visited fragment of it defines that language, and it holds the last such fragment's stored value |
| Combine.CombineNeverResets | src/main/java/de/terrestris/maven/i18n/I18nCombineMojo.java:90-93 | an existing language record is reused and never reset: no component in it is lost |
| Combine.CombineFailureStops | src/main/java/de/terrestris/maven/i18n/I18nCombineMojo.java:74-75 | once a prefix of the walk fails, the whole goal fails with that failure |
| Combine.OutputNameInjective | src/main/java/de/terrestris/maven/i18n/I18nCombineMojo.java:72 | distinct languages get distinct output files `<lang>.json` |
| Combine.OutputFilesExact | src/main/java/de/terrestris/maven/i18n/I18nCombineMojo.java:70-73 | exactly one output `<lang>.json` per root language, holding that language's record |
| Combine.WriteOutputs | src/main/kotlin/de/terrestris/maven/i18n/I18nCombineMojo.kt:56-58 | the output loop adds exactly the files of the root's languages, each holding that language's record, and leaves the fragments alone |
| JavaCombine.I18nCombineMojo.Execute | src/main/java/de/terrestris/maven/i18n/I18nCombineMojo.java:51-77 | an output directory that cannot be created fails before anything else; a missing source directory then writes nothing and succeeds; otherwise, on success the outputs are those of the combined root, and on failure nothing is written |
| JavaCombine.I18nCombineMojo.CombineJsonFiles | src/main/java/de/terrestris/maven/i18n/I18nCombineMojo.java:79-98 | the recursive walk leaves the root as the combine fold of the directory's walk; a null listing fails |
| JavaCombine.I18nCombineMojo.CombineEntry | src/main/java/de/terrestris/maven/i18n/I18nCombineMojo.java:80-85 | one entry: a directory is walked first, then a name with the fragment suffix is read |
| JavaCombine.I18nCombineMojo.CombineFragment | src/main/java/de/terrestris/maven/i18n/I18nCombineMojo.java:85-95 | one fragment stores `block.get(lang)`, or JSON null, for each of its languages under its component; a non-object fragment adds nothing; an unreadable one fails |
| KotlinCombine.I18nCombineMojo.Execute | src/main/kotlin/de/terrestris/maven/i18n/I18nCombineMojo.kt:41-63 | an output directory that cannot be created fails; a missing source tree yields no languages, no files and no error; otherwise the outputs are those of the combined root |
| KotlinCombine.I18nCombineMojo.CombineJsonFiles | src/main/kotlin/de/terrestris/maven/i18n/I18nCombineMojo.kt:65-83 | the recursive walk leaves the node as the combine fold of the directory's walk; a null listing returns |
| KotlinCombine.I18nCombineMojo.CombineEntry | src/main/kotlin/de/terrestris/maven/i18n/I18nCombineMojo.kt:67-71 | one entry: a directory is walked first, then a name with the fragment suffix is read |
| KotlinCombine.I18nCombineMojo.CombineFragment | src/main/kotlin/de/terrestris/maven/i18n/I18nCombineMojo.kt:72-80 | one fragment stores its whole language block for each language under its component; a fragment that is not an object fails the cast |
| LegacyCombine.I18nMojo.Execute | src/main/java/de/terrestris/maven/i18n/I18nMojo.java:29-48 | an output directory that cannot be created fails; with no source-existence check, a missing source directory fails `requireNonNull`; otherwise the outputs are those of the combined map |
| LegacyCombine.I18nMojo.CombineJsonFiles | src/main/java/de/terrestris/maven/i18n/I18nMojo.java:50-67 | the recursive walk leaves the map as the combine fold of the directory's walk; a null listing fails |
| LegacyCombine.I18nMojo.CombineEntry | src/main/java/de/terrestris/maven/i18n/I18nMojo.java:51-55 | one entry: a directory is walked first, then a name with the fragment suffix is read |
| LegacyCombine.I18nMojo.CombineFragment | src/main/java/de/terrestris/maven/i18n/I18nMojo.java:55-64 | one fragment stores its whole language block for each language under its component; a fragment that is not an object map fails |
| Fill.FillFragment | src/main/java/de/terrestris/maven/i18n/I18nFillMojo.java:84 | a fragment that does not parse fails, and so does one that is not an object, before any block is looked at |
| Fill.AddPlaceholders | src/main/java/de/terrestris/maven/i18n/I18nFillMojo.java:91-96 | the key loop leaves the target as the filled block: its own entries, plus a placeholder for every missing source key |
| Fill.FillBlock | src/main/kotlin/de/terrestris/maven/i18n/I18nFillMojo.kt:82-86 | the filled block's keys are the target's keys plus the source's; existing target entries are never overwritten; each added key holds `<target>:<text of source value>` |
| Fill.FillBlockIdempotent | src/main/java/de/terrestris/maven/i18n/I18nFillMojo.java:93 | filling an already filled block adds nothing |
| Fill.FillFragmentEffect | src/main/java/de/terrestris/maven/i18n/I18nFillMojo.java:84-97 | a fragment is accepted exactly when it holds the source block, its target block (if any) is an object, and in Kotlin its source block is an object; a missing source block always fails; the result has the filled target block and every other language block unchanged |
| Fill.FillFragmentIdempotent | src/main/kotlin/de/terrestris/maven/i18n/I18nFillMojo.kt:83 | filling an already filled fragment changes nothing |
| Fill.FillSameLanguageUnchanged | src/main/java/de/terrestris/maven/i18n/I18nFillMojo.java:85-96 | with equal source and target languages, both names refer to one block and fill puts nothing into it: an object fragment comes back unchanged |
| Fill.FillerIdempotent | src/main/java/de/terrestris/maven/i18n/I18nFillMojo.java:84-97 | the per-fragment fill fails on an unreadable file and leaves its own output alone |
| Fill.FillRunIdempotent | src/main/java/de/terrestris/maven/i18n/I18nFillMojo.java:62-100 | running fill again on the files it wrote succeeds and changes nothing, in both languages |
| Fill.FillRun | src/main/java/de/terrestris/maven/i18n/I18nFillMojo.java:68-72 | a missing source directory is no error and changes no file, in Java (existence check) and Kotlin (null listing, `I18nFillMojo.kt:69`) |
| JavaFill.I18nFillMojo.Execute | src/main/java/de/terrestris/maven/i18n/I18nFillMojo.java:62-76 | a missing source directory is skipped; otherwise the files and the failure are those of the Java fill fold |
| JavaFill.I18nFillMojo.FillMissingValues | src/main/java/de/terrestris/maven/i18n/I18nFillMojo.java:78-100 | the recursive walk rewrites the files as the fill fold of the directory's walk; a null listing fails |
| JavaFill.I18nFillMojo.FillEntry | src/main/java/de/terrestris/maven/i18n/I18nFillMojo.java:79-83 | one entry: a directory is walked first, then a name with the fragment suffix is filled |
| JavaFill.I18nFillMojo.FillFile | src/main/java/de/terrestris/maven/i18n/I18nFillMojo.java:84-97 | one fragment is written back to its own path as the Java fill of it, or the goal fails and the file is left alone |
| KotlinFill.I18nFillMojo.Execute | src/main/kotlin/de/terrestris/maven/i18n/I18nFillMojo.kt:55-66 | the files and the failure are those of the Kotlin fill fold; a missing directory is skipped by the walk |
| KotlinFill.I18nFillMojo.FillMissingValues | src/main/kotlin/de/terrestris/maven/i18n/I18nFillMojo.kt:68-90 | the recursive walk rewrites the files as the fill fold of the directory's walk; a null listing returns |
| KotlinFill.I18nFillMojo.FillEntry | src/main/kotlin/de/terrestris/maven/i18n/I18nFillMojo.kt:70-74 | one entry: a directory is walked first, then a name with the fragment suffix is filled |
| KotlinFill.I18nFillMojo.FillFile | src/main/kotlin/de/terrestris/maven/i18n/I18nFillMojo.kt:75-87 | one fragment is written back in place as the Kotlin fill of it, or the goal fails and the file is left alone |
| Rewrite.RewriteStep | src/main/java/de/terrestris/maven/i18n/I18nSplitMojo.java:73-90 | a null listing fails in Java and changes nothing in Kotlin; a fragment visit succeeds exactly when the rewrite of its content does, writes the result to its own path and leaves every other file alone |
| Rewrite.RewriteFailureStops | src/main/java/de/terrestris/maven/i18n/I18nFillMojo.java:73-75 | once a prefix of the walk fails, the goal ends with that failure and no later file is rewritten |
| Rewrite.RewriteTouchesOnlyFragments | src/main/java/de/terrestris/maven/i18n/I18nSplitMojo.java:90 | a file that no fragment visit names is left alone |
| Rewrite.RewriteIdempotent | src/main/kotlin/de/terrestris/maven/i18n/I18nFillMojo.kt:68-90 | a walk whose per-fragment rewrite is idempotent is idempotent as a whole |
| Rewrite.RewriteSucceeded | src/main/kotlin/de/terrestris/maven/i18n/I18nSplitMojo.kt:65-82 | a successful goal rewrote every fragment it visited without failure |
| Split.SplitFragment | src/main/java/de/terrestris/maven/i18n/I18nSplitMojo.java:78 | a fragment that does not parse fails, and so does one that is not an object, before any block is looked at |
| Split.SetFields | src/main/java/de/terrestris/maven/i18n/I18nSplitMojo.java:86-89 | the field loop sets every entry of the new values, keeps the other entries of the block, and adds no other key |
| Split.SplitFragmentEffect | src/main/kotlin/de/terrestris/maven/i18n/I18nSplitMojo.kt:70-81 | a fragment is accepted exactly when its language block (if any) is an object and the combined file has its component (in Kotlin, as an object); a missing component then fails; the result overwrites the block with the component's entries, keeps its other keys, and leaves every other language block unchanged |
| Split.SplitFragmentIdempotent | src/main/java/de/terrestris/maven/i18n/I18nSplitMojo.java:86-89 | splitting the same combined file into a fragment twice changes nothing the second time |
| Split.SplitterIdempotent | src/main/java/de/terrestris/maven/i18n/I18nSplitMojo.java:78-90 | the per-fragment split fails on an unreadable file and leaves its own output alone |
| Split.SplitRunIdempotent | src/main/java/de/terrestris/maven/i18n/I18nSplitMojo.java:72-93 | running split again with the same combined file succeeds and changes nothing, in both languages |
| Split.SplitNeedsEveryComponent | src/main/java/de/terrestris/maven/i18n/I18nSplitMojo.java:85-86 | a successful split found, in the combined file, an entry for the component of every fragment it visited |
| Split.SplitRun | src/main/java/de/terrestris/maven/i18n/I18nSplitMojo.java:64-73 | an unreadable combined file fails first; in Kotlin a combined file that is not an object fails the cast; without the source directory, Java's split fails on the null listing and Kotlin's changes nothing |
| JavaSplit.I18nSplitMojo.Execute | src/main/java/de/terrestris/maven/i18n/I18nSplitMojo.java:58-70 | an unreadable combined file fails; otherwise the files and the failure are those of the Java split fold |
| JavaSplit.I18nSplitMojo.SplitJsonFile | src/main/java/de/terrestris/maven/i18n/I18nSplitMojo.java:72-93 | the recursive walk rewrites the files as the split fold of the directory's walk; a null listing fails |
| JavaSplit.I18nSplitMojo.SplitEntry | src/main/java/de/terrestris/maven/i18n/I18nSplitMojo.java:73-77 | one entry: a directory is walked first, then a name with the fragment suffix is split into |
| JavaSplit.I18nSplitMojo.SplitFile | src/main/java/de/terrestris/maven/i18n/I18nSplitMojo.java:78-90 | one fragment is written back to its own path as the Java split into it, or the goal fails and the file is left alone |
| KotlinSplit.I18nSplitMojo.Execute | src/main/kotlin/de/terrestris/maven/i18n/I18nSplitMojo.kt:53-61 | an unreadable or non-object combined file fails; otherwise the files and the failure are those of the Kotlin split fold |
| KotlinSplit.I18nSplitMojo.SplitJsonFile | src/main/kotlin/de/terrestris/maven/i18n/I18nSplitMojo.kt:63-84 | the recursive walk rewrites the files as the split fold of the directory's walk; a null listing returns |
| KotlinSplit.I18nSplitMojo.SplitEntry | src/main/kotlin/de/terrestris/maven/i18n/I18nSplitMojo.kt:65-69 | one entry: a directory is walked first, then a name with the fragment suffix is split into |
| KotlinSplit.I18nSplitMojo.SplitFile | src/main/kotlin/de/terrestris/maven/i18n/I18nSplitMojo.kt:70-81 | one fragment is written back in place as the Kotlin split into it, or the goal fails and the file is left alone |
| RoundTrip.CombineThenSplit | src/main/kotlin/de/terrestris/maven/i18n/I18nCombineMojo.kt:79 | the round trip: if the Kotlin or untyped Java combine succeeds on readable object fragments that each have an object block for `lang` and distinct components, then splitting its `lang` record back succeeds and changes no file, with either split goal; Java's split additionally needs a walk that met no null listing (`I18nSplitMojo.java:73`) |
| RoundTrip.UntypedCombineThenJavaSplit | src/main/java/de/terrestris/maven/i18n/I18nMojo.java:51 | after a successful untyped Java combine, Java's split restores the fragments with no further condition, since that combine already met no null listing |
| RoundTrip.UntypedCombineListsEverything | src/main/java/de/terrestris/maven/i18n/I18nMojo.java:51 | the untyped combine succeeds only on walks that met no null listing |
| RoundTrip.JavaCombineStoresNull | src/main/java/de/terrestris/maven/i18n/I18nCombineMojo.java:94 | for one fragment `a.i18n.json` holding `{"de": {"x": "1"}}`, the typed Java combine writes `de.json` as `{"a": null}`, and splitting that back with the Kotlin goal fails on component `a` |
| RoundTrip.BlockStoringCombineKeepsTranslations | src/main/java/de/terrestris/maven/i18n/I18nMojo.java:63 | for the same fragment, storing the whole block gives `{"de": {"a": {"x": "1"}}}`, and splitting it back leaves the fragment unchanged |

## Left out

- Maven parameter binding, `MavenProject`, base-directory path assembly and `pathPrefix`
  are not modelled. Outputs are keyed by file name only.
- JSON parsing and serialisation are not modelled, nor pretty printing and key order.
  JSON is a value datatype. A file that does not parse is a path absent from the source
  map. Numbers keep their literal text, so no floating point is involved.
- `Documents.AsText` follows Jackson's `asText()`: strings give their text, numbers
  their literal, booleans `true`/`false`, null `null`, and containers the empty string.
  Number formatting by Jackson is not modelled.
- Listing, `exists`, `mkdirs` and `writeValue` are not modelled as real filesystem
  calls. The tree is a datatype with a given listing order. A missing source directory
  is `None`. Output-directory creation is the boolean `outDirReady`. Writes always
  succeed.
- Logging is not modelled.
- Exceptions are not modelled as classes. They are failures in a `Failure` datatype.
  Java's wrapping in `MojoExecutionException` is not modelled, and neither is Kotlin
  split's lack of wrapping; both end the goal with the same failure.
- In-place updates of Jackson `ObjectNode`s are modelled as map values written back
  into the class field or the workspace, so sharing between nodes is not modelled.
  Nodes do become shared: fill with equal source and target languages reads and
  writes one block, combine stores a fragment's own block node in the root, and split
  sets the combined file's nodes into the fragment. No shared node is mutated after it
  becomes shared, so values give the same results. With equal languages every key is
  already present and nothing is put (`Fill.FillSameLanguageUnchanged`).
- Directory entries that are neither files nor directories are not modelled.

## Findings

| source | as written | input that shows it | evidently intended | confidence | as-written member | corrected member |
|---|---|---|---|---|---|---|
| src/main/java/de/terrestris/maven/i18n/I18nCombineMojo.java:94 | stores `field.getValue().get(lang)`, the entry named by the language code inside the language block, which is normally absent, so JSON null is stored | one fragment `a.i18n.json` holding `{"de": {"x": "1"}}` gives `de.json` = `{"a": null}` | store the whole language block, as `I18nCombineMojo.kt:79` and `I18nMojo.java:63` do, so that split restores the fragments | not executed | RoundTrip.JavaCombineStoresNull | RoundTrip.CombineThenSplit |
