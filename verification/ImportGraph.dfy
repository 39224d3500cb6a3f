/** The import graph walk: which project files a worker depends on. */
module ImportGraph {
  import opened Basics

  /** A project: `imports` gives the specifiers a file imports, nothing if it cannot be read or parsed; `resolve`
      the file a specifier means in another file. */
  datatype Project = Project(
    baseDir: string, imports: string -> Option<seq<string>>, resolve: (string, string) -> Option<string>)

  function LastIndex(s: string, c: char, n: nat): (i: int)
    requires n <= |s|
    ensures -1 <= i < n && (i >= 0 ==> s[i] == c)
  {
    if n == 0 then -1 else if s[n - 1] == c then n - 1 else LastIndex(s, c, n - 1)
  }

  function BaseName(file: string): string {
    file[LastIndex(file, '/', |file|) + 1..]
  }

  function Extension(base: string): string {
    var dot := LastIndex(base, '.', |base|);
    if dot <= 0 then "" else base[dot..]
  }

  function ExtName(file: string): string {
    Extension(BaseName(file))
  }

  predicate Scannable(file: string) {
    ExtName(file) in {".ts", ".tsx", ".js", ".jsx", ".mjs", ".cjs"}
  }

  predicate StandsAt(s: string, part: string, i: nat) {
    i + |part| <= |s| && s[i..i + |part|] == part
  }

  predicate Contains(s: string, part: string) {
    exists i :: 0 <= i <= |s| && StandsAt(s, part, i)
  }

  predicate Local(root: string, file: string) {
    root <= file && !Contains(file, "/node_modules/")
  }

  function Root(baseDir: string): string {
    if baseDir != "" && baseDir[|baseDir| - 1] == '/' then baseDir else baseDir + "/"
  }

  lemma {:induction false} LastIndexIs(s: string, c: char, n: nat, i: int)
    requires n <= |s| && -1 <= i < n && (i >= 0 ==> s[i] == c) && forall k :: i < k < n ==> s[k] != c
    ensures LastIndex(s, c, n) == i
  {
    if n > 0 && i < n - 1 {
      LastIndexIs(s, c, n - 1, i);
    }
  }

  lemma {:induction false} NoneAfter(s: string, c: char, n: nat)
    requires n <= |s|
    ensures forall k :: LastIndex(s, c, n) < k < n ==> s[k] != c
  {
    if n > 0 && s[n - 1] != c {
      NoneAfter(s, c, n - 1);
    }
  }

  /** `file` is a name that is not empty, with the suffix `ext` behind it. */
  ghost predicate Suffixed(file: string, ext: string) {
    exists stem :: stem != "" && stem[|stem| - 1] != '/' && file == stem + ext
  }

  lemma BaseWithout(stem: string, ext: string)
    requires '/' !in ext
    ensures BaseName(stem + ext) == BaseName(stem) + ext
  {
    var file := stem + ext;
    var slash := LastIndex(stem, '/', |stem|);
    NoneAfter(stem, '/', |stem|);
    forall k | slash < k < |file| ensures file[k] != '/' {
      assert k >= |stem| ==> file[k] == ext[k - |stem|];
    }
    LastIndexIs(file, '/', |file|, slash);
  }

  lemma BaseNotEmpty(stem: string)
    requires stem != "" && stem[|stem| - 1] != '/'
    ensures BaseName(stem) != ""
  {
  }

  lemma ExtensionOf(name: string, ext: string)
    requires name != "" && ext != "" && ext[0] == '.' && '.' !in ext[1..]
    ensures Extension(name + ext) == ext
  {
    var base := name + ext;
    forall k | |name| < k < |base| ensures base[k] != '.' {
      assert base[k] == ext[1..][k - |name| - 1];
    }
    LastIndexIs(base, '.', |base|, |name|);
  }

  lemma SuffixIsExt(stem: string, ext: string)
    requires stem != "" && stem[|stem| - 1] != '/' && ext != "" && ext[0] == '.' && '.' !in ext[1..] && '/' !in ext
    ensures ExtName(stem + ext) == ext
  {
    BaseWithout(stem, ext);
    BaseNotEmpty(stem);
    ExtensionOf(BaseName(stem), ext);
  }

  lemma ExtIsSuffix(file: string)
    ensures ExtName(file) != "" ==> Suffixed(file, ExtName(file))
  {
    var slash := LastIndex(file, '/', |file|);
    var base := BaseName(file);
    var dot := LastIndex(base, '.', |base|);
    if dot > 0 {
      NoneAfter(file, '/', |file|);
      StemBefore(file, slash + 1, dot);
    }
  }

  lemma StemBefore(file: string, start: nat, dot: nat)
    requires start <= |file| && 0 < dot < |file| - start && file[start + dot - 1] != '/'
    ensures Suffixed(file, file[start..][dot..])
  {
    var stem := file[..start + dot];
    assert file == stem + file[start + dot..] && file[start..][dot..] == file[start + dot..];
  }

  /** The files that are scanned for imports are those with one of six suffixes. */
  lemma ScannableIff(file: string)
    ensures Scannable(file) <==>
            || Suffixed(file, ".ts") || Suffixed(file, ".tsx") || Suffixed(file, ".js") || Suffixed(file, ".jsx")
            || Suffixed(file, ".mjs") || Suffixed(file, ".cjs")
  {
    ExtIsSuffix(file);
    SuffixScannable(file, ".ts");
    SuffixScannable(file, ".tsx");
    SuffixScannable(file, ".js");
    SuffixScannable(file, ".jsx");
    SuffixScannable(file, ".mjs");
    SuffixScannable(file, ".cjs");
  }

  lemma SuffixScannable(file: string, ext: string)
    requires ext in {".ts", ".tsx", ".js", ".jsx", ".mjs", ".cjs"}
    ensures Suffixed(file, ext) ==> ExtName(file) == ext
  {
    if stem :| stem != "" && stem[|stem| - 1] != '/' && file == stem + ext {
      SuffixIsExt(stem, ext);
    }
  }

  predicate EndsInSlash(s: string) {
    s != "" && s[|s| - 1] == '/'
  }

  lemma BelowRoot(baseDir: string, file: string)
    ensures Root(baseDir) <= file <==>
            exists rest :: file == if EndsInSlash(baseDir) then baseDir + rest else baseDir + ("/" + rest)
  {
    var root := Root(baseDir);
    if root <= file {
      var rest := file[|root|..];
      assert file == root + rest;
      assert !EndsInSlash(baseDir) ==> root + rest == baseDir + ("/" + rest);
    }
    if rest :| file == if EndsInSlash(baseDir) then baseDir + rest else baseDir + ("/" + rest) {
      assert !EndsInSlash(baseDir) ==> baseDir + ("/" + rest) == root + rest;
    }
  }

  lemma ContainsIff(s: string, part: string)
    ensures Contains(s, part) <==> exists a, b :: s == a + (part + b)
  {
    if Contains(s, part) {
      var i :| 0 <= i <= |s| && StandsAt(s, part, i);
      assert s == s[..i] + (part + s[i + |part|..]);
    }
    if a, b :| s == a + (part + b) {
      assert StandsAt(s, part, |a|);
    }
  }

  /** A project file lies below the base directory, with no directory called node_modules on its path. */
  lemma LocalIff(baseDir: string, file: string)
    ensures Local(Root(baseDir), file) <==>
            && (exists rest :: file == if EndsInSlash(baseDir) then baseDir + rest else baseDir + ("/" + rest))
            && !(exists a, b :: file == a + ("/node_modules/" + b))
  {
    BelowRoot(baseDir, file);
    ContainsIff(file, "/node_modules/");
  }

  /** `file` is scanned and has an import that leads to `d`, a project file outside `node_modules`. */
  ghost predicate DependsOn(p: Project, file: string, d: string) {
    Scannable(file) && p.imports(file).Some? && Local(Root(p.baseDir), d)
    && exists s :: s in p.imports(file).value && p.resolve(s, file) == Some(d)
  }

  ghost predicate Closed(p: Project, files: set<string>) {
    forall f, d :: f in files && DependsOn(p, f, d) ==> d in files
  }

  /** A chain of imports from the first file of `chain` to its last. */
  ghost predicate Chain(p: Project, chain: seq<string>) {
    chain != [] && forall i {:trigger chain[i]} :: 0 < i < |chain| ==> DependsOn(p, chain[i - 1], chain[i])
  }

  ghost predicate Imports(p: Project, entry: string, file: string) {
    exists chain :: Chain(p, chain) && chain[0] == entry && chain[|chain| - 1] == file
  }

  lemma ImportsNext(p: Project, entry: string, file: string, next: string)
    requires Imports(p, entry, file) && DependsOn(p, file, next)
    ensures Imports(p, entry, next)
  {
    var chain :| Chain(p, chain) && chain[0] == entry && chain[|chain| - 1] == file;
    var longer := chain + [next];
    forall i | 0 < i < |longer| ensures DependsOn(p, longer[i - 1], longer[i]) {
      if i < |chain| {
        assert longer[i - 1] == chain[i - 1] && longer[i] == chain[i];
      }
    }
    assert Chain(p, longer) && longer[0] == entry && longer[|longer| - 1] == next;
  }

  lemma {:induction false} ClosedHolds(p: Project, files: set<string>, chain: seq<string>)
    requires Closed(p, files) && Chain(p, chain) && chain[0] in files
    ensures chain[|chain| - 1] in files
    decreases |chain|
  {
    if |chain| > 1 {
      var front := chain[..|chain| - 1];
      assert Chain(p, front);
      ClosedHolds(p, files, front);
      assert DependsOn(p, front[|front| - 1], chain[|chain| - 1]);
    }
  }

  /** Pushes the files an import of `file` leads to, those already seen excepted. */
  method PushImports(p: Project, file: string, seen: set<string>, before: seq<string>) returns (stack: seq<string>)
    ensures forall f :: f in before ==> f in stack
    ensures forall f :: f in stack ==> f in before || DependsOn(p, file, f)
    ensures forall d :: DependsOn(p, file, d) ==> d in seen || d in stack
  {
    stack := before;
    if !Scannable(file) || p.imports(file).None? {
      return;
    }
    var specifiers, root := p.imports(file).value, Root(p.baseDir);
    for i := 0 to |specifiers|
      invariant forall f :: f in before ==> f in stack
      invariant forall f :: f in stack ==> f in before || DependsOn(p, file, f)
      invariant forall j, d :: 0 <= j < i && p.resolve(specifiers[j], file) == Some(d) && Local(root, d) ==>
                  d in seen || d in stack
    {
      var target := p.resolve(specifiers[i], file);
      if target.Some? && Local(root, target.value) && target.value !in seen {
        assert specifiers[i] in specifiers;
        stack := stack + [target.value];
      }
    }
  }

  /** The walk finds exactly the files a chain of imports leads to from the entry, which is the least set that holds
      the entry and is closed under local imports; all but the entry are project files outside `node_modules`.
      `files` bounds the project. */
  method CollectImportGraph(p: Project, entry: string, ghost files: set<string>) returns (seen: set<string>)
    requires entry in files && Closed(p, files)
    ensures forall f :: f in seen <==> Imports(p, entry, f)
    ensures entry in seen && Closed(p, seen)
    ensures forall f :: f in seen && f != entry ==> Local(Root(p.baseDir), f)
    ensures forall s {:trigger Closed(p, s)} :: entry in s && Closed(p, s) ==> seen <= s
  {
    seen := {};
    var stack := [entry];
    assert Chain(p, [entry]);
    while stack != []
      invariant entry in seen || entry in stack
      invariant seen <= files && forall f :: f in stack ==> f in files
      invariant forall f :: f in seen || f in stack ==> Imports(p, entry, f)
      invariant forall f :: f in seen || f in stack ==> f == entry || Local(Root(p.baseDir), f)
      invariant forall f, d :: f in seen && DependsOn(p, f, d) ==> d in seen || d in stack
      decreases files - seen, |stack|
    {
      var file := stack[|stack| - 1];
      ghost var before := stack;
      stack := stack[..|stack| - 1];
      assert before == stack + [file];
      if file !in seen {
        seen := seen + {file};
        stack := PushImports(p, file, seen, stack);
        forall d | DependsOn(p, file, d) ensures Imports(p, entry, d) {
          ImportsNext(p, entry, file, d);
        }
      }
    }
    forall s | entry in s && Closed(p, s) ensures seen <= s {
      Within(p, entry, seen, s);
    }
    ReachesNoFurther(p, entry, seen);
  }

  lemma ReachesNoFurther(p: Project, entry: string, seen: set<string>)
    requires entry in seen && Closed(p, seen)
    ensures forall f :: Imports(p, entry, f) ==> f in seen
  {
    forall f | Imports(p, entry, f) ensures f in seen {
      var chain :| Chain(p, chain) && chain[0] == entry && chain[|chain| - 1] == f;
      ClosedHolds(p, seen, chain);
    }
  }

  lemma Within(p: Project, entry: string, seen: set<string>, s: set<string>)
    requires entry in s && Closed(p, s) && forall f :: f in seen ==> Imports(p, entry, f)
    ensures seen <= s
  {
    forall f | f in seen ensures f in s {
      var chain :| Chain(p, chain) && chain[0] == entry && chain[|chain| - 1] == f;
      ClosedHolds(p, s, chain);
    }
  }
}
