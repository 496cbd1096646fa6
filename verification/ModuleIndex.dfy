/** The repository index as the resolver reads it: entries keyed by id and exact version,
    and the metadata of sources already present. Ids and versions are taken as trimmed. */
module ModuleIndex {
  import opened Ordering
  import opened VersionPattern

  datatype IndexDependency = IndexDependency(id: string, versionConstraint: string, required: bool)

  datatype Entry = Entry(id: string, version: string, goImportPath: string, digest: string,
                         dependencies: seq<IndexDependency>)

  datatype Source = Source(id: string, version: string, goImportPath: string, goModulePath: string,
                           dependencies: seq<IndexDependency>)

  datatype Ref = Ref(id: string, version: string)

  // --- exact versions --------------------------------------------------------------------------------

  predicate ExactVersion(v: string) {
    IsVersionText(v, {'-', '+'})
  }

  function KeyOf(id: string, version: string): string {
    id + "@" + version
  }

  function Key(r: Ref): string {
    KeyOf(r.id, r.version)
  }

  lemma NoAtInExact(v: string)
    requires ExactVersion(v)
    ensures '@' !in v
  {
    VersionTextIsSimple(v, {'-', '+'}, '@');
  }

  // --- lookups ---------------------------------------------------------------------------------------

  function EntriesOf(modules: seq<Entry>): map<string, Entry> {
    if modules == [] then map[]
    else
      var last := modules[|modules| - 1];
      EntriesOf(modules[..|modules| - 1])[KeyOf(last.id, last.version) := last]
  }

  function SourcesByKey(sources: seq<Source>): map<string, Source> {
    if sources == [] then map[]
    else
      var last := sources[|sources| - 1];
      SourcesByKey(sources[..|sources| - 1])[KeyOf(last.id, last.version) := last]
  }

  function SourcesById(sources: seq<Source>): map<string, Source> {
    if sources == [] then map[]
    else
      var last := sources[|sources| - 1];
      SourcesById(sources[..|sources| - 1])[last.id := last]
  }

  /** A loaded index holds only exact versions. */
  ghost predicate Normalised(modules: seq<Entry>) {
    forall e :: e in modules ==> ExactVersion(e.version)
  }

  lemma {:induction false} EntriesMatchTheirKeys(modules: seq<Entry>)
    ensures forall k :: k in EntriesOf(modules) ==>
              EntriesOf(modules)[k] in modules && k == KeyOf(EntriesOf(modules)[k].id, EntriesOf(modules)[k].version)
  {
    if modules != [] {
      EntriesMatchTheirKeys(modules[..|modules| - 1]);
      assert modules == modules[..|modules| - 1] + [modules[|modules| - 1]];
    }
  }

  // --- source metadata ---------------------------------------------------------------------------------

  const ById: IndexDependency -> string := (d: IndexDependency) => d.id

  predicate EqualDependencies(left: seq<IndexDependency>, right: seq<IndexDependency>) {
    |left| == |right| && StableSort(left, ById) == StableSort(right, ById)
  }

  /** equalDependencies ignores order: with distinct ids it is equality as multisets. */
  lemma EqualDependenciesMeaning(left: seq<IndexDependency>, right: seq<IndexDependency>)
    ensures EqualDependencies(left, right) ==> multiset(left) == multiset(right)
    ensures multiset(left) == multiset(right) && DistinctKeys(left, ById) ==> EqualDependencies(left, right)
  {
    StableSortSorts(left, ById);
    StableSortSorts(right, ById);
    if multiset(left) == multiset(right) && DistinctKeys(left, ById) {
      assert |left| == |multiset(left)| && |right| == |multiset(right)|;
      DistinctKeysPermute(left, StableSort(left, ById), ById);
      DistinctKeysPermute(left, StableSort(right, ById), ById);
      SortedDistinctIsStrict(StableSort(left, ById), ById);
      SortedDistinctIsStrict(StableSort(right, ById), ById);
      SameElements(StableSort(left, ById), StableSort(right, ById));
      StrictListingIsUnique(StableSort(left, ById), StableSort(right, ById), ById);
    }
  }

  predicate SourceMatchesModuleGraph(entry: Entry, source: Source) {
    var path := source.goModulePath;
    var stem := if path != "" && path[|path| - 1] == '/' then path[..|path| - 1] else path;
    path == "" || entry.goImportPath == path || stem + "/" <= entry.goImportPath
  }

  predicate MetadataMatches(entry: Entry, source: Source) {
    && entry.id == source.id && entry.version == source.version && entry.goImportPath == source.goImportPath
    && SourceMatchesModuleGraph(entry, source)
    && EqualDependencies(entry.dependencies, source.dependencies)
  }

  /** A present source of the same id and version must match; one of another version refuses. */
  predicate SourceAgrees(key: string, entry: Entry, byKey: map<string, Source>, byId: map<string, Source>) {
    if key in byKey then MetadataMatches(entry, byKey[key])
    else entry.id in byId ==> byId[entry.id].version == entry.version
  }

  // --- what the index and the sources say ----------------------------------------------------------------

  /** The last entry listed under a key. */
  ghost predicate IsLastEntry(modules: seq<Entry>, key: string, k: int) {
    && 0 <= k < |modules| && modules[k].id + "@" + modules[k].version == key
    && forall j :: k < j < |modules| ==> modules[j].id + "@" + modules[j].version != key
  }

  ghost predicate IsLastSource(sources: seq<Source>, key: string, k: int) {
    && 0 <= k < |sources| && sources[k].id + "@" + sources[k].version == key
    && forall j :: k < j < |sources| ==> sources[j].id + "@" + sources[j].version != key
  }

  /** The module path is unset, the import path itself, or, a closing slash aside, a directory above it. */
  ghost predicate IsInModule(importPath: string, modulePath: string) {
    || modulePath == "" || importPath == modulePath
    || exists stem, rest :: IsBelow(importPath, modulePath, stem, rest)
  }

  ghost predicate IsBelow(importPath: string, modulePath: string, stem: string, rest: string) {
    && importPath == stem + "/" + rest
    && (modulePath == stem + "/" || (modulePath == stem && (stem == "" || stem[|stem| - 1] != '/')))
  }

  /** Everything the entry and the source both say is the same. */
  ghost predicate SaysTheSame(e: Entry, s: Source) {
    && s.id == e.id && s.version == e.version && s.goImportPath == e.goImportPath
    && IsInModule(e.goImportPath, s.goModulePath)
    && multiset(s.dependencies) == multiset(e.dependencies)
  }

  /** The last source under the entry's key says the same; otherwise no source has the entry's key or its id. */
  ghost predicate AgreesWith(sources: seq<Source>, e: Entry) {
    || (exists k :: IsLastSource(sources, e.id + "@" + e.version, k) && SaysTheSame(e, sources[k]))
    || forall s :: s in sources ==> s.id != e.id && s.id + "@" + s.version != e.id + "@" + e.version
  }

  lemma {:induction false} EntriesOfMeaning(modules: seq<Entry>, key: string)
    ensures key in EntriesOf(modules) <==> exists k :: IsLastEntry(modules, key, k)
    ensures forall k :: IsLastEntry(modules, key, k) ==>
              key in EntriesOf(modules) && EntriesOf(modules)[key] == modules[k]
  {
    if modules != [] {
      var n := |modules| - 1;
      EntriesOfMeaning(modules[..n], key);
      if modules[n].id + "@" + modules[n].version == key {
        assert IsLastEntry(modules, key, n);
      } else {
        assert forall k :: IsLastEntry(modules, key, k) <==> IsLastEntry(modules[..n], key, k);
      }
    }
  }

  lemma {:induction false} SourcesByKeyMeaning(sources: seq<Source>, key: string)
    ensures key in SourcesByKey(sources) <==> exists k :: IsLastSource(sources, key, k)
    ensures forall k :: IsLastSource(sources, key, k) ==>
              key in SourcesByKey(sources) && SourcesByKey(sources)[key] == sources[k]
  {
    if sources != [] {
      var n := |sources| - 1;
      SourcesByKeyMeaning(sources[..n], key);
      if sources[n].id + "@" + sources[n].version == key {
        assert IsLastSource(sources, key, n);
      } else {
        assert forall k :: IsLastSource(sources, key, k) <==> IsLastSource(sources[..n], key, k);
      }
    }
  }

  lemma {:induction false} SourcesByIdMeaning(sources: seq<Source>, id: string)
    ensures id in SourcesById(sources) <==> exists s :: s in sources && s.id == id
    ensures id in SourcesById(sources) ==> SourcesById(sources)[id] in sources && SourcesById(sources)[id].id == id
  {
    if sources != [] {
      SourcesByIdMeaning(sources[..|sources| - 1], id);
      assert sources == sources[..|sources| - 1] + [sources[|sources| - 1]];
    }
  }

  lemma ModuleGraphMeaning(e: Entry, s: Source)
    ensures SourceMatchesModuleGraph(e, s) <==> IsInModule(e.goImportPath, s.goModulePath)
  {
    var path := s.goModulePath;
    var stem := if path != "" && path[|path| - 1] == '/' then path[..|path| - 1] else path;
    assert path == stem || path == stem + "/";
    if stem + "/" <= e.goImportPath && path != "" {
      var rest := e.goImportPath[|stem| + 1..];
      assert e.goImportPath == stem + "/" + rest;
      assert IsBelow(e.goImportPath, path, stem, rest);
    }
    if t, rest :| IsBelow(e.goImportPath, path, t, rest) {
      assert t + "/" <= e.goImportPath;
      assert (t + "/")[..|t|] == t;
      assert t == stem;
    }
  }

  lemma MetadataMeaning(e: Entry, s: Source)
    ensures MetadataMatches(e, s) ==> SaysTheSame(e, s)
    ensures SaysTheSame(e, s) && DistinctKeys(e.dependencies, ById) ==> MetadataMatches(e, s)
  {
    ModuleGraphMeaning(e, s);
    EqualDependenciesMeaning(e.dependencies, s.dependencies);
    hide SourceMatchesModuleGraph, IsInModule, EqualDependencies;
  }

  /** The sources let an entry through if they say the same of it, or nothing; for entries whose dependencies
      have distinct ids this is exact. */
  lemma AgreementMeaning(sources: seq<Source>, e: Entry)
    ensures var agrees := SourceAgrees(KeyOf(e.id, e.version), e, SourcesByKey(sources), SourcesById(sources));
      && (agrees ==> AgreesWith(sources, e))
      && (AgreesWith(sources, e) && DistinctKeys(e.dependencies, ById) ==> agrees)
  {
    hide MetadataMatches, SaysTheSame, DistinctKeys, SourcesByKey, SourcesById;
    var key := KeyOf(e.id, e.version);
    SourcesByKeyMeaning(sources, key);
    SourcesByIdMeaning(sources, e.id);
    forall i | 0 <= i < |sources| && sources[i].id + "@" + sources[i].version == key
      ensures exists k :: IsLastSource(sources, key, k)
    {
      LastExists(sources, key, i);
    }
    if key in SourcesByKey(sources) {
      MetadataMeaning(e, SourcesByKey(sources)[key]);
    } else if e.id in SourcesById(sources) {
      SameVersionIsListed(sources, SourcesById(sources)[e.id], e);
    }
  }

  lemma SameVersionIsListed(sources: seq<Source>, s: Source, e: Entry)
    requires s in sources && s.id == e.id && forall k :: !IsLastSource(sources, e.id + "@" + e.version, k)
    ensures s.version != e.version
  {
    if s.version == e.version {
      var i :| 0 <= i < |sources| && sources[i] == s;
      LastExists(sources, e.id + "@" + e.version, i);
    }
  }

  lemma {:induction false} LastExists(sources: seq<Source>, key: string, i: nat)
    requires i < |sources| && sources[i].id + "@" + sources[i].version == key
    ensures exists k :: IsLastSource(sources, key, k)
    decreases |sources| - i
  {
    if j :| i < j < |sources| && sources[j].id + "@" + sources[j].version == key {
      LastExists(sources, key, j);
    } else {
      assert IsLastSource(sources, key, i);
    }
  }
}
