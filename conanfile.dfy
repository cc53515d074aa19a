/**
 * The recipe of the SatoriVideo package (conanfile.py): the dependencies it
 * requires, the build it runs, the files it packages and the library it
 * exports, each chosen from its two options `with_opencv` and `sanitizer`.
 */
module SatoriVideoRecipe {
  import opened Wrappers
  import opened Conan

  /** The recipe's options; `sanitizer` is "" or "address". */
  datatype Options = Options(withOpencv: bool, sanitizer: string)

  predicate ValidOptions(o: Options)
  {
    o.sanitizer == "" || o.sanitizer == "address"
  }

  /** One `Package:option=value` entry of the default options. */
  datatype DependencyOption = DependencyOption(package: string, option: string, value: bool)

  function DefaultOptions(): (o: Options)
    ensures ValidOptions(o) && o.withOpencv && o.sanitizer == ""
  {
    Options(true, "")
  }

  function Pinned(name: string, version: string): Reference
  {
    Reference(name, version, "satorivideo", "master")
  }

  /** The requirements every configuration has. */
  function BaseRequires(): seq<Reference>
  {
    [Pinned("Libcbor", "0.5.0"), Pinned("Boost", "1.64.0"), Pinned("Openssl", "1.1.0f"),
     Pinned("Beast", "122_experimental"), Pinned("Gsl", "20017.07.27"), Pinned("Rapidjson", "1.1.0"),
     Pinned("Ffmpeg", "3.3.3_07"), Pinned("Loguru", "1.5.0"), Pinned("SDL", "2.0.5")]
  }

  function Opencv(): Reference
  {
    Pinned("Opencv", "3.3.0_02")
  }

  /** The default options of the native dependencies. */
  function DependencyDefaults(): seq<DependencyOption>
  {
    [DependencyOption("Libcbor", "fPIC", true), DependencyOption("Libcbor", "shared", false),
     DependencyOption("Boost", "fPIC", true), DependencyOption("Boost", "shared", false),
     DependencyOption("Openssl", "fPIC", true), DependencyOption("Openssl", "shared", false),
     DependencyOption("Ffmpeg", "shared", false), DependencyOption("Ffmpeg", "fPIC", true),
     DependencyOption("SDL", "shared", false), DependencyOption("SDL", "fPIC", true)]
  }

  /** The native dependencies are linked statically and built position independent. */
  lemma DependenciesStaticAndPic()
    ensures forall d :: d in DependencyDefaults() ==>
      (d.option == "shared" && !d.value) || (d.option == "fPIC" && d.value)
  {
  }

  /** `requirements`: the base requirements, and OpenCV when `with_opencv` is set. */
  function Requires(o: Options): (rs: seq<Reference>)
    ensures Opencv() in rs <==> o.withOpencv
    ensures |rs| == |BaseRequires()| + (if o.withOpencv then 1 else 0)
    ensures rs[..|BaseRequires()|] == BaseRequires()
  {
    assert Opencv() !in BaseRequires();
    BaseRequires() + (if o.withOpencv then [Opencv()] else [])
  }

  /** The definitions the recipe adds to the configure command. */
  function Definitions(o: Options): (d: map<string, string>)
    ensures "CMAKE_CXX_SANITIZER" in d <==> o.sanitizer != ""
    ensures "CMAKE_CXX_SANITIZER" in d ==> d["CMAKE_CXX_SANITIZER"] == o.sanitizer
    ensures d.Keys <= {"CMAKE_CXX_SANITIZER"}
  {
    if o.sanitizer != "" then map["CMAKE_CXX_SANITIZER" := o.sanitizer] else map[]
  }

  /** `build`: configure, compile verbosely with 8 jobs, then run the tests with 8 jobs. */
  function BuildCommands(o: Options): (steps: seq<Step>)
    ensures |steps| == 3 && steps[0].Configure? && steps[|steps| - 1].RunTests?
    ensures "CMAKE_CXX_SANITIZER" in steps[0].definitions <==> o.sanitizer != ""
  {
    [Configure(Definitions(o)), Compile(true, Some(8)), RunTests(8)]
  }

  /** The exclude patterns of the header rules as the recipe writes them:
    * the single pattern "opencv" when `with_opencv` is off. A pattern
    * without '*' matches only the relative path "opencv" itself. */
  function HeaderExcludesAsWritten(o: Options): (es: seq<string>)
    ensures es == [] <==> o.withOpencv
  {
    if o.withOpencv then [] else ["opencv"]
  }

  /** The exclude patterns the recipe evidently means: every file in a
    * folder named "opencv" when `with_opencv` is off. */
  function HeaderExcludes(o: Options): (es: seq<string>)
    ensures es == [] <==> o.withOpencv
  {
    if o.withOpencv then [] else DirectoryExcludes("opencv")
  }

  /** `package` as written: public headers, implementation headers, then the libraries. */
  function CopyRulesAsWritten(o: Options): (rules: seq<CopyRule>)
    ensures |rules| == 7 && rules[..2] == HeaderRules(HeaderExcludesAsWritten(o)) && rules[2..] == LibraryRules()
  {
    HeaderRules(HeaderExcludesAsWritten(o)) + LibraryRules()
  }

  /** `package` with the intended excludes. */
  function CopyRules(o: Options): (rules: seq<CopyRule>)
    ensures |rules| == 7 && rules[..2] == HeaderRules(HeaderExcludes(o)) && rules[2..] == LibraryRules()
  {
    HeaderRules(HeaderExcludes(o)) + LibraryRules()
  }

  /** The two header rules: `include` kept as `include`, and `src` moved
    * below `include/librtmvideo/impl`, both keeping their folders. */
  function HeaderRules(excludes: seq<string>): (rules: seq<CopyRule>)
    ensures |rules| == 2
    ensures forall r :: r in rules ==> r.pattern == "*.h" && r.keepPath && r.excludes == excludes
  {
    [CopyRule("*.h", ["include"], ["include"], true, excludes),
     CopyRule("*.h", ["src"], ["include", "librtmvideo", "impl"], true, excludes)]
  }

  /** A public header of the OpenCV helpers. */
  function OpencvUtilsHeader(): Path
  {
    ["include", "satorivideo", "opencv", "opencv_utils.h"]
  }

  /** As written, the OpenCV headers are still packaged without OpenCV:
    * "opencv" does not match "satorivideo/opencv/opencv_utils.h". */
  lemma OpencvHeaderPackagedAsWritten(o: Options, files: seq<Path>)
    requires !o.withOpencv && OpencvUtilsHeader() in files
    ensures "opencv" in Directories(OpencvUtilsHeader())
    ensures Copy(OpencvUtilsHeader(), OpencvUtilsHeader()) in Collect(CopyRulesAsWritten(o), files)
  {
    var f := OpencvUtilsHeader();
    var r := CopyRulesAsWritten(o)[0];
    assert r == CopyRule("*.h", ["include"], ["include"], true, ["opencv"]);
    var rel := RelativePath(r, f);
    var text := PathText(rel);
    assert |text| > |"opencv"| by {
      assert rel[|rel| - 1] == "opencv_utils.h";
      PathTextEndsWith(rel);
    }
    assert !Excluded(r.excludes, rel) by {
      if Matches("opencv", text) {
        LiteralMatchesOnly("opencv", text);
      }
    }
    assert f[..1] == ["include"];
    assert "*.h" == ['*'] + ".h";
    SuffixRuleSelects(r, ".h", f);
    assert Destination(r, f) == f;
    CollectHas(CopyRulesAsWritten(o), files, r, f);
  }

  /** Without OpenCV no packaged file lies in an "opencv" directory. */
  lemma NoOpencvDirectoryWithoutOpencv(o: Options, files: seq<Path>)
    requires !o.withOpencv
    ensures forall c :: c in Collect(CopyRules(o), files) ==> "opencv" !in Directories(c.to)
  {
    var rules := CopyRules(o);
    assert '*' !in "opencv";
    assert forall r :: r in rules[..2] ==> KeepsOut(r, "opencv");
    LibraryRulesKeepOut("opencv");
    assert rules == rules[..2] + rules[2..];
    NoCopyInDirectory(rules, files, "opencv");
  }

  /** With OpenCV every public header is packaged at its own path. */
  lemma HeadersKeptWithOpencv(o: Options, files: seq<Path>, f: Path)
    requires o.withOpencv
    requires f in files && |f| > 1 && f[0] == "include" && EndsWith(f[|f| - 1], ".h")
    ensures Copy(f, f) in Collect(CopyRules(o), files)
  {
    var r := CopyRules(o)[0];
    assert r == CopyRule("*.h", ["include"], ["include"], true, []);
    assert f[..1] == ["include"];
    assert "*.h" == ['*'] + ".h";
    SuffixRuleSelects(r, ".h", f);
    assert Destination(r, f) == ["include"] + f[1..] == f;
    CollectHas(CopyRules(o), files, r, f);
  }

  /** Applying the header rules: the copies of the first, then those of the second. */
  lemma HeaderRulesCollect(excludes: seq<string>, files: seq<Path>)
    ensures Collect(HeaderRules(excludes), files)
         == CopyFiles(HeaderRules(excludes)[0], files) + CopyFiles(HeaderRules(excludes)[1], files)
  {
    var rules := HeaderRules(excludes);
    assert rules[1..][1..] == [];
  }

  /** The intended excludes of a header rule match no file none of whose
    * components contains "opencv". */
  lemma HeaderExcludesUnused(r: CopyRule, files: seq<Path>)
    requires r.excludes == DirectoryExcludes("opencv")
    requires forall f :: f in files ==> forall c :: c in f ==> !Occurs("opencv", c)
    ensures forall f :: f in files && |r.src| < |f| ==> !Excluded(r.excludes, RelativePath(r, f))
  {
    forall f | f in files && |r.src| < |f|
      ensures !Excluded(r.excludes, RelativePath(r, f))
    {
      var rel := RelativePath(r, f);
      assert forall c :: c in rel ==> c in f;
      DirectoryExcludesUnused("opencv", rel);
    }
  }

  /** `with_opencv` changes the package only through files with "opencv"
    * in a folder or file name. */
  lemma OpencvOptionOnlyDropsOpencv(o: Options, files: seq<Path>)
    requires forall f :: f in files ==> forall c :: c in f ==> !Occurs("opencv", c)
    ensures Collect(CopyRules(o), files) == Collect(CopyRules(o.(withOpencv := true)), files)
  {
    if !o.withOpencv {
      var all := HeaderRules(HeaderExcludes(o));
      var kept := HeaderRules([]);
      HeaderExcludesUnused(all[0], files);
      HeaderExcludesUnused(all[1], files);
      UnusedExcludeChangesNothing(all[0], files);
      UnusedExcludeChangesNothing(all[1], files);
      assert all[0].(excludes := []) == kept[0] && all[1].(excludes := []) == kept[1];
      HeaderRulesCollect(HeaderExcludes(o), files);
      HeaderRulesCollect([], files);
      CollectAppend(all, LibraryRules(), files);
      CollectAppend(kept, LibraryRules(), files);
    }
  }

  /** The recipe as the package tool drives it: its requirements, the
    * commands it runs, the files it copies and the libraries it exports. */
  class Recipe {
    const options: Options
    var required: seq<Reference>
    var logged: seq<Step>
    var ran: seq<Step>
    var packaged: seq<Copy>
    var libs: seq<string>

    constructor (options: Options)
      requires ValidOptions(options)
      ensures this.options == options
      ensures required == BaseRequires()
      ensures logged == [] && ran == [] && packaged == [] && libs == []
    {
      this.options := options;
      required := BaseRequires();
      logged := [];
      ran := [];
      packaged := [];
      libs := [];
    }

    /** `requirements`: adds OpenCV when `with_opencv` is set. */
    method Requirements()
      requires required == BaseRequires()
      modifies this
      ensures required == Requires(options)
      ensures logged == old(logged) && ran == old(ran) && packaged == old(packaged) && libs == old(libs)
    {
      if options.withOpencv {
        required := required + [Opencv()];
      }
    }

    /** `self.run`: runs one command; a failing command raises. */
    method Run(step: Step, succeeds: Step -> bool) returns (ok: bool)
      modifies this
      ensures ok == succeeds(step)
      ensures ran == old(ran) + [step]
      ensures required == old(required) && logged == old(logged) && packaged == old(packaged) && libs == old(libs)
    {
      ran := ran + [step];
      ok := succeeds(step);
    }

    /** `build`: logs the configure command, then runs the three commands
      * until one fails. */
    method Build(succeeds: Step -> bool) returns (ok: bool)
      modifies this
      ensures ok == AllSucceed(BuildCommands(options), succeeds)
      ensures ran == old(ran) + Executed(BuildCommands(options), succeeds)
      ensures logged == old(logged) + [Configure(Definitions(options))]
      ensures required == old(required) && packaged == old(packaged) && libs == old(libs)
    {
      var steps := BuildCommands(options);
      logged := logged + [steps[0]];
      ok := Run(steps[0], succeeds);
      if ok {
        ok := Run(steps[1], succeeds);
        if ok {
          ok := Run(steps[2], succeeds);
        }
      }
      assert steps[1..] == [steps[1], steps[2]] && steps[1..][1..] == [steps[2]];
    }

    /** `self.copy`: copies the files one rule selects, after those the
      * rules `done` copied onto the package `base`. */
    method CopyMatching(ghost base: seq<Copy>, ghost done: seq<CopyRule>, rule: CopyRule, files: seq<Path>)
      requires packaged == base + Collect(done, files)
      modifies this
      ensures packaged == base + Collect(done + [rule], files)
      ensures required == old(required) && logged == old(logged) && ran == old(ran) && libs == old(libs)
    {
      CollectSnoc(done, rule, files);
      packaged := packaged + CopyFiles(rule, files);
    }

    /** `package` as intended: the header rules, with every "opencv"
      * folder excluded when `with_opencv` is off, then the library rules. */
    method Package(files: seq<Path>)
      modifies this
      ensures packaged == old(packaged) + Collect(CopyRules(options), files)
      ensures required == old(required) && logged == old(logged) && ran == old(ran) && libs == old(libs)
    {
      var excludes: seq<string> := [];
      if !options.withOpencv {
        excludes := DirectoryExcludes("opencv");
      }
      CopyHeaders(excludes, files);
      CopyLibraries(files);
      CollectAppend(HeaderRules(excludes), LibraryRules(), files);
    }

    method CopyHeaders(excludes: seq<string>, files: seq<Path>)
      modifies this
      ensures packaged == old(packaged) + Collect(HeaderRules(excludes), files)
      ensures required == old(required) && logged == old(logged) && ran == old(ran) && libs == old(libs)
    {
      var header := CopyRule("*.h", ["include"], ["include"], true, excludes);
      var impl := CopyRule("*.h", ["src"], ["include", "librtmvideo", "impl"], true, excludes);
      CopyMatching(packaged, [], header, files);
      assert [] + [header] == [header];
      CopyMatching(old(packaged), [header], impl, files);
      assert [header] + [impl] == HeaderRules(excludes);
    }

    method CopyLibraries(files: seq<Path>)
      modifies this
      ensures packaged == old(packaged) + Collect(LibraryRules(), files)
      ensures required == old(required) && logged == old(logged) && ran == old(ran) && libs == old(libs)
    {
      var lib := CopyRule("*.lib", [], ["lib"], false, []);
      var dll := CopyRule("*.dll", [], ["bin"], false, []);
      var so := CopyRule("*.so", [], ["lib"], false, []);
      var dylib := CopyRule("*.dylib", [], ["lib"], false, []);
      var a := CopyRule("*.a", [], ["lib"], false, []);
      CopyMatching(packaged, [], lib, files);
      assert [] + [lib] == [lib];
      CopyMatching(old(packaged), [lib], dll, files);
      assert [lib] + [dll] == [lib, dll];
      CopyMatching(old(packaged), [lib, dll], so, files);
      assert [lib, dll] + [so] == [lib, dll, so];
      CopyMatching(old(packaged), [lib, dll, so], dylib, files);
      assert [lib, dll, so] + [dylib] == [lib, dll, so, dylib];
      CopyMatching(old(packaged), [lib, dll, so, dylib], a, files);
      assert [lib, dll, so, dylib] + [a] == LibraryRules();
    }

    /** `package_info`. */
    method PackageInfo()
      modifies this
      ensures libs == ["rtmvideo"]
      ensures required == old(required) && logged == old(logged) && ran == old(ran) && packaged == old(packaged)
    {
      libs := ["rtmvideo"];
    }
  }
}
