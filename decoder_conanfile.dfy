/**
 * The recipe of the Decoder package (decoder/conanfile.py): one FFmpeg
 * requirement whose options follow the recipe's `emcc` option, a two-command
 * build, and a package of the library's public headers and binaries.
 */
module DecoderRecipe {
  import opened Wrappers
  import opened Conan

  /** `emcc` defaults to off. */
  const DefaultEmcc := false

  function Ffmpeg(): Reference
  {
    Reference("Ffmpeg", "3.3.3_02", "satorivideo", "master")
  }

  /** `requirements`: the FFmpeg options after the recipe has set them. */
  function FfmpegOptions(before: map<string, bool>, emcc: bool): (after: map<string, bool>)
    ensures "emcc" in after && after["emcc"] == emcc
    ensures "shared" in after && after["shared"] == emcc
    ensures "fPIC" in after && after["fPIC"]
    ensures forall k :: k in before && k != "emcc" && k != "shared" && k != "fPIC" ==> k in after && after[k] == before[k]
    ensures after.Keys == before.Keys + {"emcc", "shared", "fPIC"}
  {
    before["emcc" := emcc]["shared" := emcc]["fPIC" := true]
  }

  /** `build`: configure with a verbose makefile, then build. */
  function BuildCommands(): (steps: seq<Step>)
    ensures |steps| == 2 && steps[0].Configure? && steps[0].definitions.Keys == {"CMAKE_VERBOSE_MAKEFILE"}
    ensures forall s :: s in steps ==> !s.RunTests?
  {
    [Configure(map["CMAKE_VERBOSE_MAKEFILE" := "ON"]), Compile(false, None)]
  }

  /** The public headers of the library, from `librtmvideo/include` into `include`. */
  function HeaderRule(): (rule: CopyRule)
    ensures rule.pattern == "*.h" && rule.keepPath && rule.excludes == []
    ensures rule.src == ["librtmvideo", "include"] && rule.dst == ["include"]
  {
    CopyRule("*.h", ["librtmvideo", "include"], ["include"], true, [])
  }

  /** `package`: the headers, then the libraries; nothing depends on an option. */
  function CopyRules(): seq<CopyRule>
  {
    [HeaderRule()] + LibraryRules()
  }

  /** Every public header of the library is packaged at its path below `include`. */
  lemma HeadersPackaged(files: seq<Path>, f: Path)
    requires f in files && |f| > 2 && f[..2] == ["librtmvideo", "include"] && EndsWith(f[|f| - 1], ".h")
    ensures Copy(f, ["include"] + f[2..]) in Collect(CopyRules(), files)
  {
    assert "*.h" == ['*'] + ".h";
    SuffixRuleSelects(HeaderRule(), ".h", f);
    CollectHas(CopyRules(), files, HeaderRule(), f);
  }

  /** The recipe as the package tool drives it. */
  class Recipe {
    const emcc: bool
    var ffmpegOptions: map<string, bool>
    var ran: seq<Step>
    var packaged: seq<Copy>
    var libs: seq<string>

    /** The requirement's options start as the package tool's defaults. */
    constructor (emcc: bool, ffmpegDefaults: map<string, bool>)
      ensures this.emcc == emcc && ffmpegOptions == ffmpegDefaults
      ensures ran == [] && packaged == [] && libs == []
    {
      this.emcc := emcc;
      ffmpegOptions := ffmpegDefaults;
      ran := [];
      packaged := [];
      libs := [];
    }

    /** `requirements`: FFmpeg is built for emscripten and shared exactly
      * when this package is, and always position independent. */
    method Requirements()
      modifies this
      ensures ffmpegOptions == FfmpegOptions(old(ffmpegOptions), emcc)
      ensures ran == old(ran) && packaged == old(packaged) && libs == old(libs)
    {
      ffmpegOptions := ffmpegOptions["emcc" := emcc];
      ffmpegOptions := ffmpegOptions["shared" := emcc];
      ffmpegOptions := ffmpegOptions["fPIC" := true];
    }

    /** `self.run`: runs one command; a failing command raises. */
    method Run(step: Step, succeeds: Step -> bool) returns (ok: bool)
      modifies this
      ensures ok == succeeds(step)
      ensures ran == old(ran) + [step]
      ensures ffmpegOptions == old(ffmpegOptions) && packaged == old(packaged) && libs == old(libs)
    {
      ran := ran + [step];
      ok := succeeds(step);
    }

    /** `build`: configures, then builds unless configuring failed. */
    method Build(succeeds: Step -> bool) returns (ok: bool)
      modifies this
      ensures ok == AllSucceed(BuildCommands(), succeeds)
      ensures ran == old(ran) + Executed(BuildCommands(), succeeds)
      ensures ffmpegOptions == old(ffmpegOptions) && packaged == old(packaged) && libs == old(libs)
    {
      var steps := BuildCommands();
      ok := Run(steps[0], succeeds);
      if ok {
        ok := Run(steps[1], succeeds);
      }
      assert steps[1..] == [steps[1]] && steps[1..][1..] == [];
    }

    /** `self.copy`: copies the files one rule selects, after those the
      * rules `done` copied onto the package `base`. */
    method CopyMatching(ghost base: seq<Copy>, ghost done: seq<CopyRule>, rule: CopyRule, files: seq<Path>)
      requires packaged == base + Collect(done, files)
      modifies this
      ensures packaged == base + Collect(done + [rule], files)
      ensures ffmpegOptions == old(ffmpegOptions) && ran == old(ran) && libs == old(libs)
    {
      CollectSnoc(done, rule, files);
      packaged := packaged + CopyFiles(rule, files);
    }

    /** `package`: the headers, then the five library rules. */
    method Package(files: seq<Path>)
      modifies this
      ensures packaged == old(packaged) + Collect(CopyRules(), files)
      ensures ffmpegOptions == old(ffmpegOptions) && ran == old(ran) && libs == old(libs)
    {
      var header := CopyRule("*.h", ["librtmvideo", "include"], ["include"], true, []);
      assert packaged == old(packaged) + Collect([], files);
      CopyMatching(old(packaged), [], header, files);
      assert [] + [header] == [header];
      CopyLibraries(files);
      CollectAppend([HeaderRule()], LibraryRules(), files);
    }

    /** The five library copies. */
    method CopyLibraries(files: seq<Path>)
      modifies this
      ensures packaged == old(packaged) + Collect(LibraryRules(), files)
      ensures ffmpegOptions == old(ffmpegOptions) && ran == old(ran) && libs == old(libs)
    {
      var lib := CopyRule("*.lib", [], ["lib"], false, []);
      var dll := CopyRule("*.dll", [], ["bin"], false, []);
      var so := CopyRule("*.so", [], ["lib"], false, []);
      var dylib := CopyRule("*.dylib", [], ["lib"], false, []);
      var a := CopyRule("*.a", [], ["lib"], false, []);
      assert packaged == old(packaged) + Collect([], files);
      CopyMatching(old(packaged), [], lib, files);
      assert [] + [lib] == [lib];
      CopyMatching(old(packaged), [lib], dll, files);
      assert [lib] + [dll] == [lib, dll];
      CopyMatching(old(packaged), [lib, dll], so, files);
      assert [lib, dll] + [so] == [lib, dll, so];
      CopyMatching(old(packaged), [lib, dll, so], dylib, files);
      assert [lib, dll, so] + [dylib] == [lib, dll, so, dylib];
      CopyMatching(old(packaged), [lib, dll, so, dylib], a, files);
      assert [lib, dll, so, dylib] + [a] == LibraryRules();
    }

    /** `package_info`. */
    method PackageInfo()
      modifies this
      ensures libs == ["rtmvideo-decoder"]
      ensures ffmpegOptions == old(ffmpegOptions) && ran == old(ran) && packaged == old(packaged)
    {
      libs := ["rtmvideo-decoder"];
    }
  }
}
