/** The import graph behind the configuration loader: cycles are reported exactly when there are
    some, and the loaded configuration is the union of the layers in import order. */
module ImportGraph {
  import opened Wrappers
  import opened ConfigTree
  import opened ConfigLoader

  // ---------------------------------------------------------------------------------------------
  // The graph
  // ---------------------------------------------------------------------------------------------

  predicate IsFile(fs: FileSystem, path: string) {
    path in fs && fs[path].File?
  }

  /** An import leads to the file it names, or to the configuration files of the folder it names. */
  predicate LeadsTo(fs: FileSystem, importPath: string, path: string) {
    && importPath in fs
    && if fs[importPath].Folder? then path in FolderPaths(importPath, fs[importPath].listing) else path == importPath
  }

  ghost predicate Edge(fs: FileSystem, path: string, next: string) {
    && IsFile(fs, path) && fs[path].parsed.Some? && fs[path].parsed.value.imports.Some?
    && var imports := fs[path].parsed.value.imports.value;
       exists i :: 0 <= i < |imports| && LeadsTo(fs, imports[i], next)
  }

  ghost predicate IsWalk(fs: FileSystem, walk: seq<string>) {
    walk != [] && forall k :: 0 <= k < |walk| - 1 ==> Edge(fs, walk[k], walk[k + 1])
  }

  /** A walk that comes back to one of its paths. */
  ghost predicate ClosesCycle(fs: FileSystem, walk: seq<string>) {
    IsWalk(fs, walk) && walk[|walk| - 1] in walk[..|walk| - 1]
  }

  ghost predicate ReachesCycle(fs: FileSystem, root: string) {
    exists walk :: ClosesCycle(fs, walk) && walk[0] == root
  }

  /** A file that is there and parses. */
  predicate IsParsed(fs: FileSystem, path: string) {
    IsFile(fs, path) && fs[path].parsed.Some?
  }

  /** The file imports, directly or not, something that is no file or does not parse. */
  ghost predicate ReachesBroken(fs: FileSystem, root: string) {
    exists walk :: IsWalk(fs, walk) && walk[0] == root && !IsParsed(fs, walk[|walk| - 1])
  }

  /** All files parse, and the listings of folders name files. */
  ghost predicate IsReadable(fs: FileSystem) {
    && (forall path :: IsFile(fs, path) ==> fs[path].parsed.Some?)
    && (forall folder, path :: folder in fs && fs[folder].Folder? && path in FolderPaths(folder, fs[folder].listing) ==>
          IsFile(fs, path))
  }

  // ---------------------------------------------------------------------------------------------
  // A load that succeeds meets no cycle
  // ---------------------------------------------------------------------------------------------

  lemma {:induction false} EveryImportLoads(fs: FileSystem, imports: seq<string>, stack: seq<string>, i: nat)
    requires LoadImports(fs, imports, stack).Ok? && i < |imports|
    ensures LoadImport(fs, imports[i], stack).Ok?
  {
    if i < |imports| - 1 {
      EveryImportLoads(fs, imports[..|imports| - 1], stack, i);
    }
  }

  lemma {:induction false} EveryFileLoads(fs: FileSystem, paths: seq<string>, stack: seq<string>, path: string)
    requires LoadFiles(fs, paths, stack).Ok? && path in paths
    ensures LoadFile(fs, path, stack).Ok?
  {
    if path != paths[|paths| - 1] {
      EveryFileLoads(fs, paths[..|paths| - 1], stack, path);
    }
  }

  /** Following an edge, the load goes on with the file it came from on the stack. */
  lemma EdgeLoads(fs: FileSystem, path: string, next: string, stack: seq<string>) returns (deeper: seq<string>)
    requires LoadFile(fs, path, stack).Ok? && Edge(fs, path, next)
    ensures LoadFile(fs, next, deeper).Ok? && stack + [path] <= deeper
  {
    var imports := fs[path].parsed.value.imports.value;
    var i :| 0 <= i < |imports| && LeadsTo(fs, imports[i], next);
    deeper := stack + [path];
    EveryImportLoads(fs, imports, deeper, i);
    if fs[imports[i]].Folder? {
      var paths := FolderPaths(imports[i], fs[imports[i]].listing);
      deeper := deeper + [imports[i]];
      EveryFileLoads(fs, paths, deeper, next);
    }
  }

  lemma {:induction false} WalkLoads(fs: FileSystem, walk: seq<string>, stack: seq<string>) returns (deeper: seq<string>)
    requires IsWalk(fs, walk) && LoadFile(fs, walk[0], stack).Ok?
    ensures LoadFile(fs, walk[|walk| - 1], deeper).Ok?
    ensures forall k :: 0 <= k < |walk| - 1 ==> walk[k] in deeper
  {
    var last := |walk| - 1;
    if last == 0 {
      deeper := stack;
    } else {
      var init := walk[..last];
      var before := WalkLoads(fs, init, stack);
      deeper := EdgeLoads(fs, walk[last - 1], walk[last], before);
      forall k | 0 <= k < last ensures walk[k] in deeper {
        assert walk[k] in before + [walk[last - 1]];
        assert deeper[..|before| + 1] == before + [walk[last - 1]];
      }
    }
  }

  // ---------------------------------------------------------------------------------------------
  // A load that fails has met a cycle or something broken
  // ---------------------------------------------------------------------------------------------

  lemma {:induction false} SomeImportFails(fs: FileSystem, imports: seq<string>, stack: seq<string>) returns (i: nat)
    requires LoadImports(fs, imports, stack).Err?
    ensures i < |imports| && LoadImport(fs, imports[i], stack) == Err(LoadImports(fs, imports, stack).error)
  {
    if LoadImports(fs, imports[..|imports| - 1], stack).Err? {
      i := SomeImportFails(fs, imports[..|imports| - 1], stack);
    } else {
      i := |imports| - 1;
    }
  }

  lemma {:induction false} SomeFileFails(fs: FileSystem, paths: seq<string>, stack: seq<string>) returns (path: string)
    requires LoadFiles(fs, paths, stack).Err?
    ensures path in paths && LoadFile(fs, path, stack) == Err(LoadFiles(fs, paths, stack).error)
  {
    if LoadFiles(fs, paths[..|paths| - 1], stack).Err? {
      path := SomeFileFails(fs, paths[..|paths| - 1], stack);
    } else {
      path := paths[|paths| - 1];
    }
  }

  /** The import that made a load fail: an edge to a file whose load fails in the same way. */
  lemma FailingEdge(fs: FileSystem, path: string, stack: seq<string>) returns (next: string, deeper: seq<string>)
    requires IsParsed(fs, path) && path !in stack && LoadFile(fs, path, stack).Err?
    ensures Edge(fs, path, next)
    ensures LoadFile(fs, next, deeper) == Err(LoadFile(fs, path, stack).error)
    ensures Free(fs, deeper) < Free(fs, stack)
    ensures forall x :: x in deeper && IsFile(fs, x) ==> x in stack || x == path
  {
    var imports := fs[path].parsed.value.imports.value;
    deeper := stack + [path];
    PushShrinks(fs, stack, path);
    var i := SomeImportFails(fs, imports, deeper);
    if fs[imports[i]].Folder? {
      var paths := FolderPaths(imports[i], fs[imports[i]].listing);
      PushShrinks(fs, deeper, imports[i]);
      deeper := deeper + [imports[i]];
      next := SomeFileFails(fs, paths, deeper);
    } else {
      next := imports[i];
    }
    assert LeadsTo(fs, imports[i], next);
  }

  /** What an error says about the path it names, at the end of a walk. */
  predicate TellsCause(fs: FileSystem, error: LoadError, walk: seq<string>, stack: seq<string>)
    requires walk != []
  {
    var last := walk[|walk| - 1];
    && error.path == last
    && match error
       case Cyclic(_) => IsFile(fs, last) ==> last in stack || last in walk[..|walk| - 1]
       case NotFound(_) => last !in fs
       case Unreadable(_) => last in fs && fs[last].Folder?
       case Unparsable(_) => IsFile(fs, last) && fs[last].parsed.None?
  }

  lemma CauseOfLonger(fs: FileSystem, path: string, rest: seq<string>, stack: seq<string>, deeper: seq<string>,
                      error: LoadError)
    requires rest != [] && TellsCause(fs, error, rest, deeper)
    requires forall x :: x in deeper && IsFile(fs, x) ==> x in stack || x == path
    ensures TellsCause(fs, error, [path] + rest, stack)
  {
    var walk := [path] + rest;
    assert walk[|walk| - 1] == rest[|rest| - 1];
    assert walk[..|walk| - 1] == [path] + rest[..|rest| - 1];
  }

  lemma {:induction false} WalkOfLonger(fs: FileSystem, path: string, rest: seq<string>)
    requires IsWalk(fs, rest) && Edge(fs, path, rest[0])
    ensures IsWalk(fs, [path] + rest)
  {
    var walk := [path] + rest;
    forall k | 0 <= k < |walk| - 1 ensures Edge(fs, walk[k], walk[k + 1]) {
      if k > 0 {
        assert Edge(fs, rest[k - 1], rest[k]);
      }
    }
  }

  /** A failing load gives a walk from its file to the cause. */
  lemma {:induction false} FailureHasCause(fs: FileSystem, path: string, stack: seq<string>) returns (walk: seq<string>)
    requires LoadFile(fs, path, stack).Err?
    ensures IsWalk(fs, walk) && walk[0] == path && TellsCause(fs, LoadFile(fs, path, stack).error, walk, stack)
    decreases Free(fs, stack)
  {
    if path in stack || !IsParsed(fs, path) {
      walk := [path];
    } else {
      var next, deeper := FailingEdge(fs, path, stack);
      var rest := FailureHasCause(fs, next, deeper);
      WalkOfLonger(fs, path, rest);
      CauseOfLonger(fs, path, rest, stack, deeper, LoadFile(fs, path, stack).error);
      walk := [path] + rest;
    }
  }

  /** No walk from a file that loads comes back to itself. */
  lemma LoadedWalkIsOpen(fs: FileSystem, walk: seq<string>, stack: seq<string>)
    requires IsWalk(fs, walk) && LoadFile(fs, walk[0], stack).Ok?
    ensures walk[|walk| - 1] !in walk[..|walk| - 1]
  {
    var deeper := WalkLoads(fs, walk, stack);
    assert walk[|walk| - 1] !in deeper;
  }

  /** A load that succeeds has met nothing broken. */
  lemma LoadedWalkIsParsed(fs: FileSystem, walk: seq<string>, stack: seq<string>)
    requires IsWalk(fs, walk) && LoadFile(fs, walk[0], stack).Ok?
    ensures IsParsed(fs, walk[|walk| - 1])
  {
    var deeper := WalkLoads(fs, walk, stack);
  }

  /** The loader fails exactly when the file reaches a cycle, or something that is no file or does
      not parse, through files or folders; the error names what it reached and says what is wrong
      with it. An import that does not exist and imports that merely meet again are accepted. */
  lemma LoadFailsExactlyWhen(fs: FileSystem, root: string)
    ensures LoadFile(fs, root, []).Err? <==> ReachesCycle(fs, root) || ReachesBroken(fs, root)
    ensures LoadFile(fs, root, []).Err? ==>
      exists walk :: IsWalk(fs, walk) && walk[0] == root && TellsCause(fs, LoadFile(fs, root, []).error, walk, [])
  {
    if LoadFile(fs, root, []).Err? {
      var walk := FailureHasCause(fs, root, []);
      if IsParsed(fs, walk[|walk| - 1]) {
        assert ClosesCycle(fs, walk);
      }
    } else {
      forall walk | IsWalk(fs, walk) && walk[0] == root
        ensures !ClosesCycle(fs, walk) && IsParsed(fs, walk[|walk| - 1])
      {
        LoadedWalkIsOpen(fs, walk, []);
        LoadedWalkIsParsed(fs, walk, []);
      }
    }
  }

  lemma {:induction false} ReadableWalkIsParsed(fs: FileSystem, walk: seq<string>)
    requires IsReadable(fs) && IsWalk(fs, walk) && IsFile(fs, walk[0])
    ensures IsParsed(fs, walk[|walk| - 1])
  {
    var last := |walk| - 1;
    if last > 0 {
      assert Edge(fs, walk[last - 1], walk[last]);
    }
  }

  /** Where everything is there and parses, the loader reports a cycle exactly when there is one. */
  lemma CycleIsReportedExactlyWhenReachable(fs: FileSystem, root: string)
    requires IsReadable(fs) && IsFile(fs, root)
    ensures LoadFile(fs, root, []).Err? <==> ReachesCycle(fs, root)
    ensures LoadFile(fs, root, []).Err? ==> LoadFile(fs, root, []).error.Cyclic?
  {
    LoadFailsExactlyWhen(fs, root);
    forall walk | IsWalk(fs, walk) && walk[0] == root ensures IsParsed(fs, walk[|walk| - 1]) {
      ReadableWalkIsParsed(fs, walk);
    }
  }

  // ---------------------------------------------------------------------------------------------
  // Layers
  // ---------------------------------------------------------------------------------------------

  /** The tables that go into a file, its imports first and its own last. */
  function FileLayers(fs: FileSystem, path: string, stack: seq<string>): seq<Table>
    decreases Free(fs, stack), 0, 0
  {
    if path in stack || !IsFile(fs, path) || fs[path].parsed.None? then []
    else
      var parsed := fs[path].parsed.value;
      if parsed.imports.None? then [parsed.table]
      else
        PushShrinks(fs, stack, path);
        ImportLayers(fs, parsed.imports.value, stack + [path]) + [parsed.table]
  }

  function ImportLayers(fs: FileSystem, imports: seq<string>, stack: seq<string>): seq<Table>
    decreases Free(fs, stack), 3, |imports|
  {
    if imports == [] then []
    else ImportLayers(fs, imports[..|imports| - 1], stack) + LayersOfImport(fs, imports[|imports| - 1], stack)
  }

  function LayersOfImport(fs: FileSystem, path: string, stack: seq<string>): seq<Table>
    decreases Free(fs, stack), 2, 0
  {
    if path !in fs then []
    else if fs[path].Folder? then
      PushShrinks(fs, stack, path);
      FilesLayers(fs, FolderPaths(path, fs[path].listing), stack + [path])
    else FileLayers(fs, path, stack)
  }

  function FilesLayers(fs: FileSystem, paths: seq<string>, stack: seq<string>): seq<Table>
    decreases Free(fs, stack), 1, |paths|
  {
    if paths == [] then []
    else FilesLayers(fs, paths[..|paths| - 1], stack) + FileLayers(fs, paths[|paths| - 1], stack)
  }

  /** A table stands for layers: it conforms and has the last leaf everywhere. */
  ghost predicate StandsFor(table: Table, layers: seq<Table>, schema: Schema) {
    Conforms(table, schema, []) && forall p :: At(table, p) == LastAt(layers, p)
  }

  ghost predicate AllStandFor(tables: seq<Table>, layers: seq<Table>, schema: Schema) {
    AllConform(tables, schema) && forall p :: LastAt(tables, p) == LastAt(layers, p)
  }

  lemma {:induction false} LastAtConcat(a: seq<Table>, b: seq<Table>, p: Path)
    ensures LastAt(a + b, p) == OrElse(LastAt(b, p), LastAt(a, p))
  {
    if b == [] {
      assert a + b == a;
    } else {
      var n := |b| - 1;
      assert (a + b)[..|a + b| - 1] == a + b[..n];
      LastAtConcat(a, b[..n], p);
    }
  }

  lemma AppendStands(tables: seq<Table>, layers: seq<Table>, table: Table, more: seq<Table>, schema: Schema)
    requires AllStandFor(tables, layers, schema) && StandsFor(table, more, schema)
    ensures AllStandFor(tables + [table], layers + more, schema)
  {
    forall p ensures LastAt(tables + [table], p) == LastAt(layers + more, p) {
      LastAtConcat(tables, [table], p);
      LastAtConcat(layers, more, p);
      assert [table][..0] == [];
      assert At(table, p) == LastAt(more, p) && LastAt(tables, p) == LastAt(layers, p);
    }
  }

  lemma MergeStands(tables: seq<Table>, layers: seq<Table>, schema: Schema)
    requires AllStandFor(tables, layers, schema)
    ensures StandsFor(MergeAll(tables), layers, schema)
  {
    MergeAllIsLast(tables, schema);
    forall p ensures At(MergeAll(tables), p) == LastAt(layers, p) {
      assert At(MergeAll(tables), p) == LastAt(tables, p);
    }
  }

  lemma TableStands(table: Table, schema: Schema)
    requires Conforms(table, schema, [])
    ensures StandsFor(table, [table], schema)
  {
  }

  lemma ConformSplit(a: seq<Table>, b: seq<Table>, schema: Schema)
    requires AllConform(a + b, schema)
    ensures AllConform(a, schema) && AllConform(b, schema)
  {
    assert forall i :: 0 <= i < |a| ==> a[i] == (a + b)[i];
    assert forall i :: 0 <= i < |b| ==> b[i] == (a + b)[|a| + i];
  }

  function ImportsOf(parsed: Parsed): seq<string> {
    if parsed.imports.None? then [] else parsed.imports.value
  }

  /** A loaded file is the merge of its imports and its own table. */
  lemma LoadedFileIsMerge(fs: FileSystem, path: string, stack: seq<string>)
    requires LoadFile(fs, path, stack).Ok?
    ensures IsFile(fs, path) && path !in stack && fs[path].parsed.Some?
    ensures
      var Parsed(_, table) := fs[path].parsed.value;
      var imports := ImportsOf(fs[path].parsed.value);
      var tables := LoadImports(fs, imports, stack + [path]);
      && tables.Ok?
      && LoadFile(fs, path, stack).value == MergeAll(tables.value + [table])
      && FileLayers(fs, path, stack) == ImportLayers(fs, imports, stack + [path]) + [table]
  {
  }

  lemma {:induction false} LoadedFileStands(fs: FileSystem, path: string, stack: seq<string>, schema: Schema)
    requires LoadFile(fs, path, stack).Ok? && AllConform(FileLayers(fs, path, stack), schema)
    ensures StandsFor(LoadFile(fs, path, stack).value, FileLayers(fs, path, stack), schema)
    decreases Free(fs, stack), 0, 0
  {
    LoadedFileIsMerge(fs, path, stack);
    PushShrinks(fs, stack, path);
    var table := fs[path].parsed.value.table;
    var imports := ImportsOf(fs[path].parsed.value);
    var layers := ImportLayers(fs, imports, stack + [path]);
    var tables := LoadImports(fs, imports, stack + [path]).value;
    ConformSplit(layers, [table], schema);
    LoadedImportsStand(fs, imports, stack + [path], schema);
    TableStands([table][0], schema);
    AppendStands(tables, layers, table, [table], schema);
    MergeStands(tables + [table], layers + [table], schema);
  }

  lemma {:induction false} LoadedImportsStand(fs: FileSystem, imports: seq<string>, stack: seq<string>, schema: Schema)
    requires LoadImports(fs, imports, stack).Ok? && AllConform(ImportLayers(fs, imports, stack), schema)
    ensures AllStandFor(LoadImports(fs, imports, stack).value, ImportLayers(fs, imports, stack), schema)
    decreases Free(fs, stack), 3, |imports|
  {
    if imports != [] {
      var init, last := imports[..|imports| - 1], imports[|imports| - 1];
      ConformSplit(ImportLayers(fs, init, stack), LayersOfImport(fs, last, stack), schema);
      LoadedImportsStand(fs, init, stack, schema);
      LoadedImportStands(fs, last, stack, schema);
      AppendStands(LoadImports(fs, init, stack).value, ImportLayers(fs, init, stack),
                   LoadImport(fs, last, stack).value, LayersOfImport(fs, last, stack), schema);
    }
  }

  lemma {:induction false} LoadedImportStands(fs: FileSystem, path: string, stack: seq<string>, schema: Schema)
    requires LoadImport(fs, path, stack).Ok? && AllConform(LayersOfImport(fs, path, stack), schema)
    ensures StandsFor(LoadImport(fs, path, stack).value, LayersOfImport(fs, path, stack), schema)
    decreases Free(fs, stack), 2, 0
  {
    if path in fs {
      if fs[path].Folder? {
        var paths := FolderPaths(path, fs[path].listing);
        PushShrinks(fs, stack, path);
        LoadedFilesStand(fs, paths, stack + [path], schema);
        MergeStands(LoadFiles(fs, paths, stack + [path]).value, FilesLayers(fs, paths, stack + [path]), schema);
      } else {
        LoadedFileStands(fs, path, stack, schema);
      }
    }
  }

  lemma {:induction false} LoadedFilesStand(fs: FileSystem, paths: seq<string>, stack: seq<string>, schema: Schema)
    requires LoadFiles(fs, paths, stack).Ok? && AllConform(FilesLayers(fs, paths, stack), schema)
    ensures AllStandFor(LoadFiles(fs, paths, stack).value, FilesLayers(fs, paths, stack), schema)
    decreases Free(fs, stack), 1, |paths|
  {
    if paths != [] {
      var init, last := paths[..|paths| - 1], paths[|paths| - 1];
      ConformSplit(FilesLayers(fs, init, stack), FileLayers(fs, last, stack), schema);
      LoadedFilesStand(fs, init, stack, schema);
      LoadedFileStands(fs, last, stack, schema);
      AppendStands(LoadFiles(fs, init, stack).value, FilesLayers(fs, init, stack),
                   LoadFile(fs, last, stack).value, FileLayers(fs, last, stack), schema);
    }
  }

  /** The variables of a loaded configuration are the union of the flattened layers: a file wins
      over its imports, a later import over an earlier one, through any depth of imports. */
  lemma LoadedVariablesAreUnion(fs: FileSystem, root: string, schema: Schema)
    requires LoadFile(fs, root, []).Ok?
    requires AllConform(FileLayers(fs, root, []), schema) && NamesAreDistinct(FileLayers(fs, root, []))
    ensures Flatten(LoadFile(fs, root, []).value, "") == UnionAll(FileLayers(fs, root, []))
    ensures FileLayers(fs, root, []) != []
    ensures FileLayers(fs, root, [])[|FileLayers(fs, root, [])| - 1] == fs[root].parsed.value.table
  {
    LoadedFileStands(fs, root, [], schema);
    FlattenIsUnion(LoadFile(fs, root, []).value, FileLayers(fs, root, []), schema);
  }
}
