/** Loading a configuration file with its imports, through files and folders, with a shared stack
    of the paths being loaded. */
module ConfigLoader {
  import opened Wrappers
  import opened ConfigTree

  /** What a file parses to: the array under `__imports__`, if there is one, and the rest. */
  datatype Parsed = Parsed(imports: Option<seq<string>>, table: Table)

  /** An entry below `etc/env`: a file, parsed or not parsable, or a folder with its listing. */
  datatype Entry = File(parsed: Option<Parsed>) | Folder(listing: seq<string>)

  type FileSystem = map<string, Entry>

  datatype LoadError = Cyclic(path: string) | NotFound(path: string) | Unreadable(path: string) | Unparsable(path: string)

  type Loaded = Result<Table, LoadError>

  predicate EndsWith(s: string, suffix: string) {
    |suffix| <= |s| && s[|s| - |suffix|..] == suffix
  }

  predicate IsConfigName(file: string) {
    EndsWith(file, ".env") || EndsWith(file, ".toml")
  }

  /** The configuration files of a folder, as paths. */
  function FolderPaths(folder: string, listing: seq<string>): seq<string> {
    if listing == [] then []
    else
      var paths := FolderPaths(folder, listing[..|listing| - 1]);
      var file := listing[|listing| - 1];
      if IsConfigName(file) then paths + [folder + "/" + file] else paths
  }

  lemma EndsWithExactlyWhen(s: string, suffix: string)
    ensures EndsWith(s, suffix) <==> exists stem :: s == stem + suffix
  {
    if EndsWith(s, suffix) {
      assert s == s[..|s| - |suffix|] + suffix;
    }
  }

  /** Of a listing, exactly the files that end in `.env` or `.toml` are loaded, in the order of the
      listing, by their paths in the folder. */
  lemma {:induction false} FolderPathsFollowListing(folder: string, before: seq<string>, file: string, after: seq<string>)
    ensures FolderPaths(folder, before + [file] + after) == FolderPaths(folder, before) +
      (if exists stem :: file == stem + ".env" || file == stem + ".toml" then [folder + "/" + file] else []) +
      FolderPaths(folder, after)
    ensures FolderPaths(folder, []) == []
  {
    EndsWithExactlyWhen(file, ".env");
    EndsWithExactlyWhen(file, ".toml");
    var listing := before + [file] + after;
    if after == [] {
      assert listing[..|listing| - 1] == before;
    } else {
      assert listing[..|listing| - 1] == before + [file] + after[..|after| - 1];
      FolderPathsFollowListing(folder, before, file, after[..|after| - 1]);
    }
  }

  // ---------------------------------------------------------------------------------------------
  // The loader as a function of the stack
  // ---------------------------------------------------------------------------------------------

  function Stacked(stack: seq<string>): set<string> {
    set path | path in stack
  }

  /** Paths that are not being loaded yet. */
  function Free(fs: FileSystem, stack: seq<string>): nat {
    |fs.Keys - Stacked(stack)|
  }

  lemma PushShrinks(fs: FileSystem, stack: seq<string>, path: string)
    ensures Free(fs, stack + [path]) <= Free(fs, stack)
    ensures path in fs && path !in stack ==> Free(fs, stack + [path]) < Free(fs, stack)
  {
    var before, after := fs.Keys - Stacked(stack), fs.Keys - Stacked(stack + [path]);
    assert after == before - {path};
  }

  function LoadFile(fs: FileSystem, path: string, stack: seq<string>): Loaded
    decreases Free(fs, stack), 0, 0
  {
    if path in stack then Err(Cyclic(path))
    else if path !in fs then Err(NotFound(path))
    else if fs[path].Folder? then Err(Unreadable(path))
    else if fs[path].parsed.None? then Err(Unparsable(path))
    else
      var parsed := fs[path].parsed.value;
      if parsed.imports.None? then Ok(Extend(Empty, parsed.table))
      else
        PushShrinks(fs, stack, path);
        var imports := LoadImports(fs, parsed.imports.value, stack + [path]);
        if imports.Err? then Err(imports.error) else Ok(Extend(MergeAll(imports.value), parsed.table))
  }

  /** Imports in order; one that does not exist counts as empty. */
  function LoadImports(fs: FileSystem, imports: seq<string>, stack: seq<string>): Result<seq<Table>, LoadError>
    decreases Free(fs, stack), 4, |imports|
  {
    if imports == [] then Ok([])
    else
      var before := LoadImports(fs, imports[..|imports| - 1], stack);
      if before.Err? then before
      else
        var last := LoadImport(fs, imports[|imports| - 1], stack);
        if last.Err? then Err(last.error) else Ok(before.value + [last.value])
  }

  function LoadImport(fs: FileSystem, path: string, stack: seq<string>): Loaded
    decreases Free(fs, stack), 3, 0
  {
    if path !in fs then Ok(Empty)
    else if fs[path].Folder? then LoadFolder(fs, path, fs[path].listing, stack)
    else LoadFile(fs, path, stack)
  }

  function LoadFolder(fs: FileSystem, folder: string, listing: seq<string>, stack: seq<string>): Loaded
    decreases Free(fs, stack), 2, 0
  {
    PushShrinks(fs, stack, folder);
    var configs := LoadFiles(fs, FolderPaths(folder, listing), stack + [folder]);
    if configs.Err? then Err(configs.error) else Ok(MergeAll(configs.value))
  }

  function LoadFiles(fs: FileSystem, paths: seq<string>, stack: seq<string>): Result<seq<Table>, LoadError>
    decreases Free(fs, stack), 1, |paths|
  {
    if paths == [] then Ok([])
    else
      var before := LoadFiles(fs, paths[..|paths| - 1], stack);
      if before.Err? then before
      else
        var last := LoadFile(fs, paths[|paths| - 1], stack);
        if last.Err? then Err(last.error) else Ok(before.value + [last.value])
  }

  // ---------------------------------------------------------------------------------------------
  // The loader with its shared stack
  // ---------------------------------------------------------------------------------------------

  lemma {:induction false} FilesStayErr(fs: FileSystem, paths: seq<string>, stack: seq<string>, i: nat)
    requires i <= |paths| && LoadFiles(fs, paths[..i], stack).Err?
    ensures LoadFiles(fs, paths, stack) == LoadFiles(fs, paths[..i], stack)
  {
    if i == |paths| {
      assert paths[..i] == paths;
    } else {
      assert paths[..|paths| - 1][..i] == paths[..i];
      FilesStayErr(fs, paths[..|paths| - 1], stack, i);
    }
  }

  lemma {:induction false} ImportsStayErr(fs: FileSystem, imports: seq<string>, stack: seq<string>, i: nat)
    requires i <= |imports| && LoadImports(fs, imports[..i], stack).Err?
    ensures LoadImports(fs, imports, stack) == LoadImports(fs, imports[..i], stack)
  {
    if i == |imports| {
      assert imports[..i] == imports;
    } else {
      assert imports[..|imports| - 1][..i] == imports[..i];
      ImportsStayErr(fs, imports[..|imports| - 1], stack, i);
    }
  }

  class Loader {
    const fs: FileSystem
    var stack: seq<string>

    constructor (fs: FileSystem)
      ensures this.fs == fs && stack == []
    {
      this.fs := fs;
      stack := [];
    }

    /** Loads a file; the result depends only on the stack found, and a load that succeeds leaves
        the stack as it found it. An error ends the program. */
    method LoadConfigFile(path: string) returns (result: Loaded)
      modifies this
      ensures result == LoadFile(fs, path, old(stack))
      ensures result.Ok? ==> stack == old(stack)
      decreases Free(fs, stack), 0
    {
      if path in stack {
        return Err(Cyclic(path));
      }
      ghost var found := stack;
      PushShrinks(fs, stack, path);
      stack := stack + [path];
      if path !in fs {
        return Err(NotFound(path));
      }
      if fs[path].Folder? {
        return Err(Unreadable(path));
      }
      if fs[path].parsed.None? {
        return Err(Unparsable(path));
      }
      var config := fs[path].parsed.value;
      if config.imports.None? {
        stack := stack[..|stack| - 1];
        return Ok(Extend(Empty, config.table));
      }
      var importPaths := config.imports.value;
      var imports: seq<Table> := [];
      for i := 0 to |importPaths|
        invariant stack == found + [path]
        invariant LoadImports(fs, importPaths[..i], stack) == Ok(imports)
      {
        assert importPaths[..i + 1][..i] == importPaths[..i];
        var imported: Loaded := Ok(Empty);
        if importPaths[i] in fs {
          if fs[importPaths[i]].Folder? {
            imported := LoadConfigFolder(importPaths[i]);
          } else {
            imported := LoadConfigFile(importPaths[i]);
          }
        }
        if imported.Err? {
          ImportsStayErr(fs, importPaths, found + [path], i + 1);
          return Err(imported.error);
        }
        imports := imports + [imported.value];
      }
      assert importPaths[..|importPaths|] == importPaths;
      stack := stack[..|stack| - 1];
      return Ok(Extend(MergeAll(imports), config.table));
    }

    /** Loads the configuration files of a folder in the order of its listing. */
    method LoadConfigFolder(folder: string) returns (result: Loaded)
      requires folder in fs && fs[folder].Folder?
      modifies this
      ensures result == LoadFolder(fs, folder, fs[folder].listing, old(stack))
      ensures result.Ok? ==> stack == old(stack)
      decreases Free(fs, stack), 1
    {
      ghost var found := stack;
      PushShrinks(fs, stack, folder);
      stack := stack + [folder];
      var paths := FolderPaths(folder, fs[folder].listing);
      var configs: seq<Table> := [];
      for i := 0 to |paths|
        invariant stack == found + [folder]
        invariant LoadFiles(fs, paths[..i], stack) == Ok(configs)
      {
        assert paths[..i + 1][..i] == paths[..i];
        var config := LoadConfigFile(paths[i]);
        if config.Err? {
          FilesStayErr(fs, paths, found + [folder], i + 1);
          return Err(config.error);
        }
        configs := configs + [config.value];
      }
      assert paths[..|paths|] == paths;
      stack := stack[..|stack| - 1];
      return Ok(MergeAll(configs));
    }
  }
}
