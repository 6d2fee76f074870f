/** The check that a published artifact is self-contained
    (`collectInstalledPluginSdkZodArtifactErrors`): a search over relative imports. */
module ImportClosure {
  import opened Outcomes
  import opened Reachability

  /** What the check can learn of an installed package: the files that exist, and
      for each whether it is a regular file within the size cap and what it
      imports, if it parses. Paths are compared as the path library spells them. */
  datatype Package = Package(
    entry: string,
    files: set<string>,
    isRegularWithinCap: string -> bool,
    specifiers: string -> Result<seq<string>>,
    dirname: string -> string,
    join: (string, string) -> string,
    relativeToDist: string -> string,
    isAbsolute: string -> bool)

  datatype Finding =
    | MissingEntry
    | InvalidFile(path: string)
    | Unparsable(path: string)
    | ImportsZod(path: string, specifier: string)

  // ---- resolving a specifier ---------------------------------------------------------------

  predicate StartsWith(s: string, prefix: string) {
    prefix <= s
  }

  function Candidates(pkg: Package, importer: string, specifier: string): seq<string> {
    var base := pkg.join(pkg.dirname(importer), specifier);
    [base, base + ".js", base + ".mjs", base + ".cjs",
     pkg.join(base, "index.js"), pkg.join(base, "index.mjs"), pkg.join(base, "index.cjs")]
  }

  predicate IsInsideDist(pkg: Package, path: string) {
    var relative := pkg.relativeToDist(path);
    relative != "" && !StartsWith(relative, "..") && !pkg.isAbsolute(relative)
  }

  predicate IsTarget(pkg: Package, path: string) {
    IsInsideDist(pkg, path) && path in pkg.files
  }

  /** `path` is what the specifier resolves to: the first candidate that exists inside dist. */
  ghost predicate ResolvesTo(pkg: Package, importer: string, specifier: string, path: string) {
    StartsWith(specifier, ".") &&
    exists i :: 0 <= i < |Candidates(pkg, importer, specifier)|
        && IsFirstTarget(pkg, Candidates(pkg, importer, specifier), i) &&
                Candidates(pkg, importer, specifier)[i] == path
  }

  ghost predicate IsFirstTarget(pkg: Package, candidates: seq<string>, i: nat)
    requires i < |candidates|
  {
    IsTarget(pkg, candidates[i]) && forall j | 0 <= j < i :: !IsTarget(pkg, candidates[j])
  }

  method ResolveInstalledDistRelativeImport(pkg: Package, importer: string, specifier: string)
    returns (r: Option<string>)
    ensures forall path :: r == Some(path) <==> ResolvesTo(pkg, importer, specifier, path)
    ensures r.Some? ==> IsTarget(pkg, r.value)
  {
    if !StartsWith(specifier, ".") {
      return None;
    }
    var candidatePaths := Candidates(pkg, importer, specifier);
    for i := 0 to |candidatePaths|
      invariant forall j | 0 <= j < i :: !IsTarget(pkg, candidatePaths[j])
    {
      var resolvedPath := candidatePaths[i];
      if !IsTarget(pkg, resolvedPath) {
        continue;
      }
      assert IsFirstTarget(pkg, candidatePaths, i);
      return Some(resolvedPath);
    }
    return None;
  }

  // ---- what the check promises -------------------------------------------------------------

  /** The file `from` parses and imports `to` through a relative specifier. */
  ghost function Imports(pkg: Package): (string, string) -> bool {
    (from: string, to: string) =>
      pkg.specifiers(from).Ok? && exists s :: s in pkg.specifiers(from).value && ResolvesTo(pkg, from, s, to)
  }

  predicate IsZod(specifier: string) {
    specifier == "zod" || StartsWith(specifier, "zod/")
  }

  ghost predicate IsClean(pkg: Package, path: string) {
    && path in pkg.files
    && pkg.isRegularWithinCap(path)
    && pkg.specifiers(path).Ok?
    && forall s | s in pkg.specifiers(path).value :: !IsZod(s)
  }

  /** The finding is true of a file the entry leads to. */
  ghost predicate IsJustified(pkg: Package, finding: Finding) {
    match finding
    case MissingEntry => pkg.entry !in pkg.files
    case InvalidFile(path) =>
      Reaches(Imports(pkg), pkg.entry, path) && path in pkg.files && !pkg.isRegularWithinCap(path)
    case Unparsable(path) =>
      && Reaches(Imports(pkg), pkg.entry, path) && path in pkg.files && pkg.isRegularWithinCap(path)
      && pkg.specifiers(path).Err?
    case ImportsZod(path, specifier) =>
      && Reaches(Imports(pkg), pkg.entry, path) && path in pkg.files && pkg.isRegularWithinCap(path)
      && pkg.specifiers(path).Ok? && IsFirstZod(pkg.specifiers(path).value, specifier)
  }

  /** Of all zod specifiers in the list, the first one. */
  ghost predicate IsFirstZod(specifiers: seq<string>, specifier: string) {
    exists i :: 0 <= i < |specifiers| && IsZodAt(specifiers, i) && specifiers[i] == specifier
  }

  ghost predicate IsZodAt(specifiers: seq<string>, i: nat)
    requires i < |specifiers|
  {
    IsZod(specifiers[i]) && forall j | 0 <= j < i :: !IsZod(specifiers[j])
  }

  /** Which specifiers name zod: the package itself and what lies below it, but no other
      package whose name begins like it and no file. */
  lemma ZodSpecifiers(specifier: string)
    ensures IsZod(specifier) <==> specifier == "zod" || exists below: string :: specifier == "zod" + "/" + below
    ensures IsZod("zod/v4") && !IsZod("zodiac") && !IsZod("zod-to-json-schema") && !IsZod("./zod") && !IsZod("@x/zod")
  {
    assert "zod" + "/" == "zod/";
    if IsZod(specifier) && specifier != "zod" {
      assert specifier == "zod" + "/" + specifier[4..];
    }
    assert "zodiac"[3] != "zod/"[3] && "zod-to-json-schema"[3] != "zod/"[3];
    assert "./zod"[0] != "zod/"[0] && "@x/zod"[0] != "zod/"[0];
  }

  /** A path lies inside dist if the way there from dist neither is empty nor leads up
      nor starts at the root. */
  lemma InsideDist(pkg: Package, path: string)
    ensures IsInsideDist(pkg, path) <==>
            var relative := pkg.relativeToDist(path);
            relative != "" && !pkg.isAbsolute(relative) && forall up: string :: relative != ".." + up
  {
    var relative := pkg.relativeToDist(path);
    if StartsWith(relative, "..") {
      assert relative == ".." + relative[2..];
    }
    assert forall up: string | relative == ".." + up :: StartsWith(relative, "..");
  }

  /** How a relative specifier resolves: the file itself, then with each of three extensions,
      then the index file of a directory with each of them; what lies outside dist or does not
      exist is passed over. Other specifiers resolve to nothing. */
  lemma ResolvesInOrder(pkg: Package, importer: string, specifier: string, path: string)
    ensures var base := pkg.join(pkg.dirname(importer), specifier);
            ResolvesTo(pkg, importer, specifier, path) <==>
            && specifier != "" && specifier[0] == '.'
            && path == (if IsTarget(pkg, base) then base
                        else if IsTarget(pkg, base + ".js") then base + ".js"
                        else if IsTarget(pkg, base + ".mjs") then base + ".mjs"
                        else if IsTarget(pkg, base + ".cjs") then base + ".cjs"
                        else if IsTarget(pkg, pkg.join(base, "index.js")) then pkg.join(base, "index.js")
                        else if IsTarget(pkg, pkg.join(base, "index.mjs")) then pkg.join(base, "index.mjs")
                        else pkg.join(base, "index.cjs"))
            && IsTarget(pkg, path)
  {
    var candidates := Candidates(pkg, importer, specifier);
    assert StartsWith(specifier, ".") <==> specifier != "" && specifier[0] == '.';
    var k := if IsTarget(pkg, candidates[0]) then 0 else if IsTarget(pkg, candidates[1]) then 1
             else if IsTarget(pkg, candidates[2]) then 2 else if IsTarget(pkg, candidates[3]) then 3
             else if IsTarget(pkg, candidates[4]) then 4 else if IsTarget(pkg, candidates[5]) then 5 else 6;
    assert IsFirstTarget(pkg, candidates, k) <==> IsTarget(pkg, candidates[k]);
    forall i | 0 <= i < |candidates| && IsFirstTarget(pkg, candidates, i) ensures i == k {
      assert IsTarget(pkg, candidates[i]);
    }
  }

  ghost predicate SearchOk(pkg: Package, visited: set<string>, pending: seq<string>) {
    && (pkg.entry in visited || pkg.entry in pending)
    && (forall f | f in visited || f in pending ::
          Reaches(Imports(pkg), pkg.entry, f) && (f == pkg.entry || IsTarget(pkg, f)))
    && (forall f | f in visited :: IsClean(pkg, f))
    && (forall f, g | f in visited && Imports(pkg)(f, g) :: g in visited || g in pending)
  }

  /** All specifiers of a visited file before `n` are clean, and what they resolve to is pending. */
  ghost predicate FileDone(pkg: Package, path: string, specifiers: seq<string>, n: nat, pending: seq<string>)
    requires n <= |specifiers|
  {
    && (forall i | 0 <= i < n :: !IsZod(specifiers[i]))
    && (forall i, g | 0 <= i < n && ResolvesTo(pkg, path, specifiers[i], g) :: g in pending)
  }

  lemma PopVisited(pkg: Package, visited: set<string>, pending: seq<string>, path: string)
    requires SearchOk(pkg, visited, pending + [path]) && path in visited
    ensures SearchOk(pkg, visited, pending)
  {
    assert forall f | f in pending :: f in pending + [path];
    assert forall f | f in pending + [path] :: f in pending || f == path;
  }

  lemma VisitFile(pkg: Package, visited: set<string>, pending: seq<string>, path: string, pushed: seq<string>)
    requires SearchOk(pkg, visited, pending + [path]) && IsClean(pkg, path)
    requires FileDone(pkg, path, pkg.specifiers(path).value, |pkg.specifiers(path).value|, pushed)
    requires forall g | g in pushed :: Imports(pkg)(path, g) && IsTarget(pkg, g)
    ensures SearchOk(pkg, visited + {path}, pending + pushed)
  {
    var specifiers := pkg.specifiers(path).value;
    assert path in pending + [path];
    assert forall f | f in pending + [path] :: f in pending || f == path;
    forall f | f in visited + {path} || f in pending + pushed
      ensures Reaches(Imports(pkg), pkg.entry, f) && (f == pkg.entry || IsTarget(pkg, f))
    {
      if f in pushed { ReachesStep(Imports(pkg), pkg.entry, path, f); }
      else if f in pending { assert f in pending + [path]; }
    }
    forall f, g | f in visited + {path} && Imports(pkg)(f, g) ensures g in visited + {path} || g in pending + pushed {
      if f == path {
        var s :| s in specifiers && ResolvesTo(pkg, path, s, g);
        var i :| 0 <= i < |specifiers| && specifiers[i] == s;
        assert g in pushed;
      }
    }
  }

  lemma SearchIsDone(pkg: Package, visited: set<string>)
    requires SearchOk(pkg, visited, [])
    ensures forall f :: f in visited <==> Reaches(Imports(pkg), pkg.entry, f)
  {
    ClosedIsReachable(Imports(pkg), pkg.entry, visited);
  }

  /** Scans one file's imports; `Err` carries the zod specifier found. */
  method CollectImports(pkg: Package, path: string, specifiers: seq<string>)
    returns (zod: Option<string>, pushed: seq<string>)
    requires pkg.specifiers(path) == Ok(specifiers)
    ensures zod.Some? ==> IsFirstZod(specifiers, zod.value)
    ensures zod.None? ==> FileDone(pkg, path, specifiers, |specifiers|, pushed)
    ensures forall g | g in pushed :: Imports(pkg)(path, g) && IsTarget(pkg, g)
  {
    zod, pushed := None, [];
    for i := 0 to |specifiers|
      invariant FileDone(pkg, path, specifiers, i, pushed)
      invariant forall g | g in pushed :: Imports(pkg)(path, g) && IsTarget(pkg, g)
    {
      var specifier := specifiers[i];
      if IsZod(specifier) {
        assert IsZodAt(specifiers, i);
        return Some(specifier), pushed;
      }
      var resolvedPath := ResolveInstalledDistRelativeImport(pkg, path, specifier);
      if resolvedPath.Some? {
        assert ResolvesTo(pkg, path, specifier, resolvedPath.value);
        pushed := pushed + [resolvedPath.value];
      }
    }
  }

  /** The check is sound and complete, and ends on cyclic imports: it reports
      nothing exactly when every file the entry leads to is clean; a report is
      true of such a file; and every file reached by an import lies inside dist. */
  method CollectInstalledPluginSdkZodArtifactErrors(pkg: Package) returns (errors: seq<Finding>)
    ensures errors == [] <==> forall f | Reaches(Imports(pkg), pkg.entry, f) :: IsClean(pkg, f)
    ensures |errors| <= 1 && forall e | e in errors :: IsJustified(pkg, e)
    ensures errors == [] ==> forall f | Reaches(Imports(pkg), pkg.entry, f) :: f == pkg.entry || IsInsideDist(pkg, f)
  {
    var pending, visited := [pkg.entry], {};
    ReachesSelf(Imports(pkg), pkg.entry);
    while |pending| > 0
      invariant SearchOk(pkg, visited, pending)
      decreases pkg.files + {pkg.entry} - visited, |pending|
    {
      var filePath := pending[|pending| - 1];
      ghost var whole := pending;
      pending := pending[..|pending| - 1];
      assert whole == pending + [filePath] && filePath in whole;
      if filePath in visited {
        PopVisited(pkg, visited, pending, filePath);
        continue;
      }
      if filePath !in pkg.files {
        assert !IsClean(pkg, filePath);
        return [MissingEntry];
      }
      if !pkg.isRegularWithinCap(filePath) {
        assert !IsClean(pkg, filePath);
        return [InvalidFile(filePath)];
      }
      var parsed := pkg.specifiers(filePath);
      if parsed.Err? {
        assert !IsClean(pkg, filePath);
        return [Unparsable(filePath)];
      }
      var zod, pushed := CollectImports(pkg, filePath, parsed.value);
      if zod.Some? {
        assert !IsClean(pkg, filePath);
        return [ImportsZod(filePath, zod.value)];
      }
      VisitFile(pkg, visited, pending, filePath, pushed);
      visited := visited + {filePath};
      pending := pending + pushed;
    }
    SearchIsDone(pkg, visited);
    return [];
  }
}
