/**
 * What the package tool does with the two recipes of the repository
 * (conanfile.py and decoder/conanfile.py): it runs their build commands one
 * after another, a command that fails raising and so ending the build, and
 * it copies the files their copy rules select into the package tree.
 */
module Conan {
  import opened Wrappers

  /** A package reference `name/version@user/channel`. */
  datatype Reference = Reference(name: string, version: string, user: string, channel: string)

  /** A command of a recipe's `build`. `Configure` runs `cmake .` with the
    * definitions the recipe adds to the tool's own command line; `Compile`
    * runs `cmake --build .`, with `VERBOSE=1` in its environment or not and
    * with the native tool's `-j` job count when one is given; `RunTests`
    * runs `ctest -V` with a job count. */
  datatype Step =
    | Configure(definitions: map<string, string>)
    | Compile(verbose: bool, jobs: Option<nat>)
    | RunTests(testJobs: nat)

  /** The commands `self.run` executes for `steps` when each command's
    * success is `succeeds`: all of them up to and including the first that
    * fails. */
  function Executed(steps: seq<Step>, succeeds: Step -> bool): (ran: seq<Step>)
    ensures |ran| <= |steps| && ran == steps[..|ran|]
    ensures forall i :: 0 <= i < |ran| - 1 ==> succeeds(ran[i])
    ensures |ran| < |steps| ==> ran != [] && !succeeds(ran[|ran| - 1])
  {
    if steps == [] then []
    else if !succeeds(steps[0]) then [steps[0]]
    else [steps[0]] + Executed(steps[1..], succeeds)
  }

  predicate AllSucceed(steps: seq<Step>, succeeds: Step -> bool)
  {
    forall i :: 0 <= i < |steps| ==> succeeds(steps[i])
  }

  /** The build runs every command when none of them fails, and otherwise
    * ends with one that failed. */
  lemma {:induction false} ExecutedAll(steps: seq<Step>, succeeds: Step -> bool)
    ensures AllSucceed(steps, succeeds) ==> Executed(steps, succeeds) == steps
    ensures !AllSucceed(steps, succeeds) ==>
      var ran := Executed(steps, succeeds); ran != [] && !succeeds(ran[|ran| - 1])
  {
    if steps != [] {
      if !succeeds(steps[0]) {
        assert !AllSucceed(steps, succeeds);
      } else {
        var rest := Executed(steps[1..], succeeds);
        ExecutedAll(steps[1..], succeeds);
        assert Executed(steps, succeeds) == [steps[0]] + rest;
        assert AllSucceed(steps, succeeds) <==> AllSucceed(steps[1..], succeeds) by {
          assert forall i :: 0 < i < |steps| ==> steps[i] == steps[1..][i - 1];
        }
        if AllSucceed(steps[1..], succeeds) {
          assert steps == [steps[0]] + steps[1..];
        }
      }
    }
  }

  /** A command that fails is the last one run: nothing after it runs. */
  lemma FailureStopsTheRest(steps: seq<Step>, succeeds: Step -> bool, k: nat)
    requires k < |steps| && !succeeds(steps[k])
    ensures |Executed(steps, succeeds)| <= k + 1
  {
    var ran := Executed(steps, succeeds);
    if |ran| > k + 1 {
      assert ran[k] == steps[k];
    }
  }

  /** A file of a source tree, as its path components. */
  type Path = seq<string>

  predicate EndsWith(s: string, suffix: string)
  {
    |suffix| <= |s| && s[|s| - |suffix|..] == suffix
  }

  /** A path as the tool spells it relative to a folder: its components
    * joined by '/'. */
  function PathText(p: Path): string
  {
    if p == [] then []
    else if |p| == 1 then p[0]
    else PathText(p[..|p| - 1]) + "/" + p[|p| - 1]
  }

  /** The text of a non-empty path ends with its file name. */
  lemma {:induction false} PathTextEndsWith(p: Path)
    requires p != []
    ensures EndsWith(PathText(p), p[|p| - 1])
  {
    if |p| > 1 {
      var t, name := PathText(p[..|p| - 1]), p[|p| - 1];
      assert (t + "/" + name)[|t| + 1..] == name;
    }
  }

  /** Python's `fnmatch` on POSIX for the patterns the recipes use: '*'
    * matches any run of characters, '/' included, and every other
    * character matches itself. */
  predicate Matches(pattern: string, s: string)
    decreases |pattern| + |s|
  {
    if pattern == [] then s == []
    else if pattern[0] == '*' then Matches(pattern[1..], s) || (s != [] && Matches(pattern, s[1..]))
    else s != [] && s[0] == pattern[0] && Matches(pattern[1..], s[1..])
  }

  /** `self.copy(pattern, dst, src, keep_path, excludes)`; `src` and `dst`
    * are paths below the build and package folders, the empty path being
    * the folder itself, and `excludes` holds the exclude patterns (none
    * when the recipe passes `None`). */
  datatype CopyRule = CopyRule(pattern: string, src: Path, dst: Path, keepPath: bool, excludes: seq<string>)

  /** One file copied from the build tree into the package tree. */
  datatype Copy = Copy(from: Path, to: Path)

  /** The path of `file` relative to the rule's source folder. */
  function RelativePath(rule: CopyRule, file: Path): (rel: Path)
    requires |rule.src| < |file|
    ensures |rel| == |file| - |rule.src| && rel != []
    ensures rel[|rel| - 1] == file[|file| - 1]
  {
    file[|rule.src|..]
  }

  /** The directories of `file` between the rule's source folder and the file. */
  function Relative(rule: CopyRule, file: Path): (dirs: Path)
    requires |rule.src| < |file|
    ensures |dirs| == |file| - |rule.src| - 1
  {
    file[|rule.src|..|file| - 1]
  }

  /** An exclude pattern matches the file's relative path. */
  predicate Excluded(excludes: seq<string>, rel: Path)
  {
    exists e :: e in excludes && Matches(e, PathText(rel))
  }

  /** A rule selects a file below its source folder whose relative path
    * matches its pattern and none of its exclude patterns. */
  predicate Selected(rule: CopyRule, file: Path)
    ensures Selected(rule, file) ==> rule.src < file
    ensures Selected(rule, file) ==> Matches(rule.pattern, PathText(file[|rule.src|..]))
    ensures Selected(rule, file) ==> forall e :: e in rule.excludes ==> !Matches(e, PathText(RelativePath(rule, file)))
  {
    && |rule.src| < |file|
    && file[..|rule.src|] == rule.src
    && Matches(rule.pattern, PathText(RelativePath(rule, file)))
    && !Excluded(rule.excludes, RelativePath(rule, file))
  }

  /** Where a selected file lands: below `dst`, keeping its directories
    * below `src` when `keep_path` is set and flattened otherwise. */
  function Destination(rule: CopyRule, file: Path): (to: Path)
    requires |rule.src| < |file|
    ensures |to| > |rule.dst| && to[..|rule.dst|] == rule.dst && to[|to| - 1] == file[|file| - 1]
    ensures rule.keepPath ==> |to| == |rule.dst| + |file| - |rule.src|
    ensures !rule.keepPath ==> |to| == |rule.dst| + 1
  {
    if rule.keepPath then rule.dst + file[|rule.src|..] else rule.dst + [file[|file| - 1]]
  }

  /** The files one rule copies, in the order of the build tree's listing. */
  function CopyFiles(rule: CopyRule, files: seq<Path>): (cs: seq<Copy>)
    ensures forall c :: c in cs ==> c.from in files && Selected(rule, c.from) && c.to == Destination(rule, c.from)
    ensures forall f :: f in files && Selected(rule, f) ==> Copy(f, Destination(rule, f)) in cs
  {
    if files == [] then []
    else
      var rest := CopyFiles(rule, files[1..]);
      if Selected(rule, files[0]) then [Copy(files[0], Destination(rule, files[0]))] + rest else rest
  }

  /** A `package` method: its rules applied in order. */
  function Collect(rules: seq<CopyRule>, files: seq<Path>): (cs: seq<Copy>)
    ensures |cs| == 0 <== rules == []
  {
    if rules == [] then [] else CopyFiles(rules[0], files) + Collect(rules[1..], files)
  }

  /** Every copy of a package comes from a rule that selects its file. */
  lemma {:induction false} CollectFrom(rules: seq<CopyRule>, files: seq<Path>, c: Copy)
    requires c in Collect(rules, files)
    ensures c.from in files
    ensures exists r :: r in rules && Selected(r, c.from) && c.to == Destination(r, c.from)
  {
    if c !in CopyFiles(rules[0], files) {
      CollectFrom(rules[1..], files, c);
      var r :| r in rules[1..] && Selected(r, c.from) && c.to == Destination(r, c.from);
      assert r in rules;
    }
  }

  /** Every file a rule selects is copied into the package. */
  lemma {:induction false} CollectHas(rules: seq<CopyRule>, files: seq<Path>, r: CopyRule, f: Path)
    requires r in rules && f in files && Selected(r, f)
    ensures Copy(f, Destination(r, f)) in Collect(rules, files)
  {
    if r != rules[0] {
      CollectHas(rules[1..], files, r, f);
    }
  }

  /** Applying one more rule appends its copies. */
  lemma {:induction false} CollectSnoc(rules: seq<CopyRule>, r: CopyRule, files: seq<Path>)
    ensures Collect(rules + [r], files) == Collect(rules, files) + CopyFiles(r, files)
  {
    if rules == [] {
      assert ([] + [r])[1..] == [];
    } else {
      assert (rules + [r])[1..] == rules[1..] + [r];
      CollectSnoc(rules[1..], r, files);
    }
  }

  // ---------------------------------------------------------------------
  // Matching

  /** A pattern that starts with literal characters matches exactly the
    * texts that start with them and go on as the rest of the pattern. */
  lemma {:induction false} LiteralMatches(lit: string, q: string, s: string)
    requires '*' !in lit
    ensures Matches(lit + q, s) <==> |lit| <= |s| && s[..|lit|] == lit && Matches(q, s[|lit|..])
    decreases |lit|
  {
    if lit == [] {
      assert lit + q == q;
    } else {
      assert (lit + q)[0] == lit[0] && (lit + q)[1..] == lit[1..] + q;
      if s != [] {
        LiteralMatches(lit[1..], q, s[1..]);
        if |lit| <= |s| {
          assert s[1..][..|lit| - 1] == s[1..|lit|] && s[1..][|lit| - 1..] == s[|lit|..];
          assert s[..|lit|] == lit <==> s[0] == lit[0] && s[1..|lit|] == lit[1..];
        }
      }
    }
  }

  /** '*' alone matches every text. */
  lemma {:induction false} StarMatchesAll(s: string)
    ensures Matches("*", s)
    decreases |s|
  {
    if s != [] {
      StarMatchesAll(s[1..]);
    }
  }

  /** A leading '*' passes over any text before what the rest matches. */
  lemma {:induction false} StarSkips(q: string, x: string, s: string)
    requires Matches(q, s)
    ensures Matches(['*'] + q, x + s)
    decreases |x|
  {
    assert (['*'] + q)[1..] == q;
    if x != [] {
      StarSkips(q, x[1..], s);
      assert (x + s)[1..] == x[1..] + s;
    } else {
      assert x + s == s;
    }
  }

  /** What a leading '*' passes over: some suffix of the text matches the rest. */
  lemma {:induction false} StarFinds(q: string, s: string) returns (i: nat)
    requires Matches(['*'] + q, s)
    ensures i <= |s| && Matches(q, s[i..])
    decreases |s|
  {
    assert (['*'] + q)[1..] == q;
    if Matches(q, s) {
      i := 0;
    } else {
      var j := StarFinds(q, s[1..]);
      assert s[1..][j..] == s[j + 1..];
      i := j + 1;
    }
  }

  /** `*<suffix>` matches every text ending with the suffix. */
  lemma StarSuffix(suffix: string, s: string)
    requires '*' !in suffix && EndsWith(s, suffix)
    ensures Matches(['*'] + suffix, s)
  {
    LiteralMatches(suffix, [], suffix);
    assert suffix + [] == suffix && suffix[|suffix|..] == [];
    var x := s[..|s| - |suffix|];
    assert x + suffix == s;
    StarSkips(suffix, x, suffix);
  }

  /** A rule `*<suffix>` matches a relative path whose file name ends with the suffix. */
  lemma NameMatches(suffix: string, rel: Path)
    requires '*' !in suffix && rel != [] && EndsWith(rel[|rel| - 1], suffix)
    ensures Matches(['*'] + suffix, PathText(rel))
  {
    var t := PathText(rel);
    var name := rel[|rel| - 1];
    PathTextEndsWith(rel);
    assert t[|t| - |name|..][|name| - |suffix|..] == t[|t| - |suffix|..];
    StarSuffix(suffix, t);
  }

  /** A pattern without '*' matches only itself. */
  lemma LiteralMatchesOnly(lit: string, s: string)
    requires '*' !in lit && Matches(lit, s)
    ensures s == lit
  {
    LiteralMatches(lit, [], s);
    assert lit + [] == lit;
  }

  /** A rule `*<suffix>` selects a file below its source folder whose name
    * ends with the suffix and that no exclude pattern matches. */
  lemma SuffixRuleSelects(rule: CopyRule, suffix: string, file: Path)
    requires rule.pattern == ['*'] + suffix && '*' !in suffix
    requires |rule.src| < |file| && file[..|rule.src|] == rule.src && EndsWith(file[|file| - 1], suffix)
    requires !Excluded(rule.excludes, RelativePath(rule, file))
    ensures Selected(rule, file)
  {
    NameMatches(suffix, RelativePath(rule, file));
  }

  /** The text of a path with one more component. */
  lemma PathTextSnoc(p: Path, last: string)
    requires p != []
    ensures PathText(p + [last]) == PathText(p) + "/" + last
  {
    var q := p + [last];
    assert q[..|q| - 1] == p;
  }

  /** The text of `a + b` ends with the separator and `b`'s last component. */
  lemma PathTextAppendLast(a: Path, b: Path)
    requires a != [] && b != []
    ensures PathText(a + b) == PathText(a + b[..|b| - 1]) + "/" + b[|b| - 1]
  {
    assert a + b == (a + b[..|b| - 1]) + [b[|b| - 1]];
    PathTextSnoc(a + b[..|b| - 1], b[|b| - 1]);
  }

  /** The text of two non-empty paths one after the other. */
  lemma {:induction false} PathTextSplit(a: Path, b: Path)
    requires a != [] && b != []
    ensures PathText(a + b) == PathText(a) + "/" + PathText(b)
    decreases |b|
  {
    PathTextAppendLast(a, b);
    var init, last := b[..|b| - 1], b[|b| - 1];
    if |b| == 1 {
      assert a + init == a;
    } else {
      PathTextSplit(a, init);
      var x, y := PathText(a), PathText(init);
      assert (x + "/" + y) + "/" + last == x + "/" + (y + "/" + last);
    }
  }

  /** A text occurs in `s` from index `i` on. */
  predicate OccursAt(w: string, s: string, i: int)
  {
    0 <= i && i + |w| <= |s| && s[i..i + |w|] == w
  }

  ghost predicate Occurs(w: string, s: string)
  {
    exists i :: OccursAt(w, s, i)
  }

  /** A text that straddles the separator before a path's last component has a '/' in it. */
  lemma SeparatorInside(w: string, t: string, last: string, i: int)
    requires OccursAt(w, t + "/" + last, i) && i <= |t| < i + |w|
    ensures '/' in w
  {
    assert w[|t| - i] == (t + "/" + last)[|t|];
  }

  /** A text without '/' that occurs in a path's text occurs in one of its components. */
  lemma {:induction false} OccursInComponent(w: string, p: Path, i: int)
    requires p != [] && '/' !in w && OccursAt(w, PathText(p), i)
    ensures exists c :: c in p && Occurs(w, c)
    decreases |p|
  {
    var last := p[|p| - 1];
    if |p| == 1 {
      assert OccursAt(w, p[0], i) && p[0] in p;
    } else {
      var init := p[..|p| - 1];
      var t := PathText(init);
      var whole := PathText(p);
      assert whole == t + "/" + last;
      if i + |w| <= |t| {
        assert whole[i..i + |w|] == t[i..i + |w|];
        OccursInComponent(w, init, i);
        var c :| c in init && Occurs(w, c);
        assert c in p;
      } else if i > |t| {
        assert whole[i..i + |w|] == last[i - |t| - 1..i - |t| - 1 + |w|];
        assert OccursAt(w, last, i - |t| - 1) && last in p;
      } else {
        SeparatorInside(w, t, last, i);
        assert false;
      }
    }
  }

  // ---------------------------------------------------------------------
  // Keeping a folder name out of a package

  /** The two patterns that leave out every file in a folder named `tag`:
    * one directly below `src`, and one further down. */
  function DirectoryExcludes(tag: string): (es: seq<string>)
    ensures |es| == 2
  {
    [tag + "/*", "*/" + tag + "/*"]
  }

  /** A folder directly below `src` matches the first pattern. */
  lemma HeadDirectoryMatches(tag: string, y: string)
    requires '*' !in tag
    ensures Matches(DirectoryExcludes(tag)[0], tag + "/" + y)
  {
    var head := tag + "/";
    assert '*' !in head;
    StarMatchesAll(y);
    LiteralMatches(head, "*", head + y);
    assert (head + y)[..|head|] == head && (head + y)[|head|..] == y;
    assert head + "*" == DirectoryExcludes(tag)[0];
  }

  /** A folder further down matches the second pattern. */
  lemma InnerDirectoryMatches(tag: string, x: string, y: string)
    requires '*' !in tag
    ensures Matches(DirectoryExcludes(tag)[1], x + "/" + tag + "/" + y)
  {
    var lit := "/" + tag + "/";
    assert '*' !in lit;
    StarMatchesAll(y);
    LiteralMatches(lit, "*", lit + y);
    assert (lit + y)[..|lit|] == lit && (lit + y)[|lit|..] == y;
    StarSkips(lit + "*", x, lit + y);
    assert ['*'] + (lit + "*") == DirectoryExcludes(tag)[1];
    assert x + (lit + y) == x + "/" + tag + "/" + y;
  }

  /** A file in a folder named `tag` matches one of the two patterns. */
  lemma DirectoryMatches(tag: string, rel: Path, j: nat)
    requires '*' !in tag && j < |rel| - 1 && rel[j] == tag
    ensures Excluded(DirectoryExcludes(tag), rel)
  {
    var rest := rel[j + 1..];
    assert PathText([tag]) == tag;
    PathTextSplit([tag], rest);
    if j == 0 {
      assert rel == [tag] + rest;
      HeadDirectoryMatches(tag, PathText(rest));
      assert DirectoryExcludes(tag)[0] in DirectoryExcludes(tag);
    } else {
      assert rel == rel[..j] + ([tag] + rest);
      PathTextSplit(rel[..j], [tag] + rest);
      var x := PathText(rel[..j]);
      var y := PathText(rest);
      assert PathText(rel) == x + "/" + (tag + "/" + y);
      assert x + "/" + (tag + "/" + y) == x + "/" + tag + "/" + y;
      InnerDirectoryMatches(tag, x, y);
      assert DirectoryExcludes(tag)[1] in DirectoryExcludes(tag);
    }
  }

  /** A text one of the two patterns matches has `tag` in it. */
  lemma DirectoryExcludesOccur(tag: string, s: string)
    requires '*' !in tag && Excluded(DirectoryExcludes(tag), [s])
    ensures Occurs(tag, s)
  {
    var head := tag + "/";
    var lit := "/" + tag + "/";
    assert '*' !in head && '*' !in lit;
    assert PathText([s]) == s;
    if Matches(DirectoryExcludes(tag)[0], s) {
      assert DirectoryExcludes(tag)[0] == head + "*";
      LiteralMatches(head, "*", s);
      assert s[..|tag|] == head[..|tag|] == tag;
      assert OccursAt(tag, s, 0);
    } else {
      assert DirectoryExcludes(tag)[1] == ['*'] + (lit + "*");
      var i := StarFinds(lit + "*", s);
      LiteralMatches(lit, "*", s[i..]);
      assert s[i + 1..i + 1 + |tag|] == s[i..][..|lit|][1..1 + |tag|] == tag;
      assert OccursAt(tag, s, i + 1);
    }
  }

  /** A rule keeps `tag` out of the directories of what it copies: its
    * destination does not name it, and a rule that keeps paths excludes
    * every folder named `tag`. */
  predicate KeepsOut(r: CopyRule, tag: string)
  {
    '*' !in tag && tag !in r.dst && (r.keepPath ==> DirectoryExcludes(tag)[0] in r.excludes && DirectoryExcludes(tag)[1] in r.excludes)
  }

  /** The directories of a path: all its components but the last. */
  function Directories(p: Path): (dirs: Path)
    ensures |dirs| == if p == [] then 0 else |p| - 1
    ensures forall i :: 0 <= i < |dirs| ==> dirs[i] == p[i]
  {
    if p == [] then [] else p[..|p| - 1]
  }

  /** The file name of a path: its last component. */
  function Name(p: Path): string
  {
    if p == [] then "" else p[|p| - 1]
  }

  /** Rules that all keep `tag` out package nothing in a `tag` directory. */
  lemma NoCopyInDirectory(rules: seq<CopyRule>, files: seq<Path>, tag: string)
    requires forall r :: r in rules ==> KeepsOut(r, tag)
    ensures forall c :: c in Collect(rules, files) ==> tag !in Directories(c.to)
  {
    forall c | c in Collect(rules, files)
      ensures tag !in Directories(c.to)
    {
      CollectFrom(rules, files, c);
      var r :| r in rules && Selected(r, c.from) && c.to == Destination(r, c.from);
      DestinationKeepsOut(r, c.from, tag);
    }
  }

  /** A file a rule selects lands outside every `tag` directory when the rule keeps `tag` out. */
  lemma DestinationKeepsOut(r: CopyRule, f: Path, tag: string)
    requires Selected(r, f) && KeepsOut(r, tag)
    ensures tag !in Directories(Destination(r, f))
  {
    var to := Destination(r, f);
    if r.keepPath {
      var rel := RelativePath(r, f);
      assert Directories(to) == r.dst + Relative(r, f);
      if tag in Relative(r, f) {
        var j :| 0 <= j < |Relative(r, f)| && Relative(r, f)[j] == tag;
        assert rel[j] == tag;
        DirectoryMatches(tag, rel, j);
      }
    } else {
      assert Directories(to) == r.dst;
    }
  }

  /** The library rules flatten into `lib` and `bin`, so they keep out every other folder name. */
  lemma LibraryRulesKeepOut(tag: string)
    requires '*' !in tag && tag != "lib" && tag != "bin"
    ensures forall r :: r in LibraryRules() ==> KeepsOut(r, tag)
  {
  }

  /** Applying two lists of rules one after the other. */
  lemma {:induction false} CollectAppend(a: seq<CopyRule>, b: seq<CopyRule>, files: seq<Path>)
    ensures Collect(a + b, files) == Collect(a, files) + Collect(b, files)
  {
    if a != [] {
      assert (a + b)[1..] == a[1..] + b;
      CollectAppend(a[1..], b, files);
    } else {
      assert a + b == b;
    }
  }

  /** A file an exclude pattern matches is not copied. */
  lemma ExcludedNotCopied(rule: CopyRule, files: seq<Path>, f: Path)
    requires |rule.src| < |f| && Excluded(rule.excludes, RelativePath(rule, f))
    ensures forall c :: c in CopyFiles(rule, files) ==> c.from != f
  {
  }

  /** Excludes that match no file below the source folder leave the rule's copies as they were. */
  lemma {:induction false} UnusedExcludeChangesNothing(rule: CopyRule, files: seq<Path>)
    requires forall f :: f in files && |rule.src| < |f| ==> !Excluded(rule.excludes, RelativePath(rule, f))
    ensures CopyFiles(rule, files) == CopyFiles(rule.(excludes := []), files)
  {
    if files != [] {
      UnusedExcludeChangesNothing(rule, files[1..]);
      var f := files[0];
      assert Selected(rule, f) == Selected(rule.(excludes := []), f);
    }
  }

  /** The folder patterns match no file none of whose components contains `tag`. */
  lemma DirectoryExcludesUnused(tag: string, rel: Path)
    requires '*' !in tag && '/' !in tag && rel != []
    requires forall c :: c in rel ==> !Occurs(tag, c)
    ensures !Excluded(DirectoryExcludes(tag), rel)
  {
    if Excluded(DirectoryExcludes(tag), rel) {
      var s := PathText(rel);
      assert PathText([s]) == s;
      DirectoryExcludesOccur(tag, s);
      var i :| OccursAt(tag, s, i);
      OccursInComponent(tag, rel, i);
    }
  }

  /** The library rules of both recipes: every static or shared library
    * and every DLL of the build tree, flattened into `lib` or `bin`. */
  function LibraryRules(): seq<CopyRule>
  {
    [CopyRule("*.lib", [], ["lib"], false, []),
     CopyRule("*.dll", [], ["bin"], false, []),
     CopyRule("*.so", [], ["lib"], false, []),
     CopyRule("*.dylib", [], ["lib"], false, []),
     CopyRule("*.a", [], ["lib"], false, [])]
  }

  /** The library rules flatten every library into `lib` or `bin`, whatever the recipe. */
  lemma LibrariesFlattened(files: seq<Path>, c: Copy)
    requires c in Collect(LibraryRules(), files)
    ensures c.to == ["lib", Name(c.from)] || c.to == ["bin", Name(c.from)]
  {
    CollectFrom(LibraryRules(), files, c);
  }
}
