/** `exec`: building the argument and environment vectors for `execvpe`,
    and finding the files a dynamically linked program needs by reading the
    output of `ldd`. */
module Exec {
  import opened Base
  import opened Text
  import opened Paths
  import opened Utf8

  // ---------------------------------------------------------------------
  // `run`

  /** The bytes of a C string, without its terminating zero. */
  type CStr = seq<Byte>

  /** `CString::new` on a Rust string: it fails exactly when the string holds
      a NUL, and otherwise keeps the string's UTF-8 bytes, so that decoding
      them gives the string back. */
  function CStringNew(s: string): (r: Option<CStr>)
    ensures r.None? <==> '\0' in s
    ensures r.Some? ==> 0 !in r.value && Decode(r.value) == Some(s)
  {
    ZeroByteIffNul(s);
    DecodeEncode(s);
    if 0 in Encode(s) then None else Some(Encode(s))
  }

  predicate NulFree(strs: seq<string>) {
    forall i :: 0 <= i < |strs| ==> '\0' !in strs[i]
  }

  /** The index of the first string that holds a NUL. */
  function FirstNul(strs: seq<string>): (r: Option<nat>)
    ensures r.None? <==> NulFree(strs)
    ensures r.Some? ==> r.value < |strs| && '\0' in strs[r.value] && NulFree(strs[..r.value])
  {
    if strs == [] then None
    else if '\0' in strs[0] then Some(0)
    else
      match FirstNul(strs[1..])
      case None => None
      case Some(i) =>
        assert strs[..i + 1] == [strs[0]] + strs[1..][..i];
        Some(i + 1)
  }

  lemma {:induction false} FirstNulAt(strs: seq<string>, i: nat)
    requires i < |strs| && '\0' in strs[i] && NulFree(strs[..i])
    ensures FirstNul(strs) == Some(i)
  {
    if i > 0 {
      assert '\0' !in strs[..i][0];
      assert strs[1..][..i - 1] == strs[..i][1..];
      FirstNulAt(strs[1..], i - 1);
    }
  }

  datatype RunError = BadCommand | BadArgument(index: nat) | BadEnvironment(index: nat) | ExecFailed

  /** What `execvpe` is asked to load: the file to look up, its argument
      vector and its environment. */
  datatype Image = Image(file: CStr, argv: seq<CStr>, envp: seq<CStr>)

  function Encodings(strs: seq<string>): (r: seq<CStr>)
    ensures |r| == |strs|
    ensures forall i :: 0 <= i < |r| ==> r[i] == Encode(strs[i])
  {
    if strs == [] then [] else [Encode(strs[0])] + Encodings(strs[1..])
  }

  /** The outcome of `exec::run`. The command is converted first, then each
      argument, then each environment string, and the first that holds a NUL
      is reported; `execOk` says whether `execvpe` replaced the process.
      Every string handed to `execvpe` is a valid C string that decodes back
      to the string it came from, and the argument vector is the command
      followed by the arguments. */
  function ExecImage(command: string, args: seq<string>, envVars: seq<string>, execOk: bool): (r: Result<Image, RunError>)
    ensures r.Ok? <==> '\0' !in command && NulFree(args) && NulFree(envVars) && execOk
    ensures r == Err(BadCommand) <==> '\0' in command
    ensures forall i: nat :: r == Err(BadArgument(i)) <==> '\0' !in command && FirstNul(args) == Some(i)
    ensures forall i: nat :: r == Err(BadEnvironment(i)) <==>
      '\0' !in command && NulFree(args) && FirstNul(envVars) == Some(i)
    ensures r.Ok? ==> Faithful(r.value, command, args, envVars)
  {
    if '\0' in command then Err(BadCommand)
    else match FirstNul(args)
      case Some(i) => Err(BadArgument(i))
      case None =>
        match FirstNul(envVars)
        case Some(i) => Err(BadEnvironment(i))
        case None =>
          if !execOk then Err(ExecFailed)
          else
            EncodedImage(command, args, envVars);
            Ok(Image(Encode(command), Encodings([command] + args), Encodings(envVars)))
  }

  /** Every C string of `img` is free of zero bytes and decodes back to the
      string it came from; the argument vector is the command followed by
      the arguments. */
  predicate Faithful(img: Image, command: string, args: seq<string>, envVars: seq<string>) {
    && 0 !in img.file && Decode(img.file) == Some(command)
    && |img.argv| == |args| + 1 && img.argv[0] == img.file
    && (forall j :: 0 <= j < |args| ==> 0 !in img.argv[j + 1] && Decode(img.argv[j + 1]) == Some(args[j]))
    && |img.envp| == |envVars|
    && (forall j :: 0 <= j < |envVars| ==> 0 !in img.envp[j] && Decode(img.envp[j]) == Some(envVars[j]))
  }

  lemma EncodedImage(command: string, args: seq<string>, envVars: seq<string>)
    requires '\0' !in command && NulFree(args) && NulFree(envVars)
    ensures Faithful(Image(Encode(command), Encodings([command] + args), Encodings(envVars)), command, args, envVars)
  {
    var argv := Encodings([command] + args);
    assert forall j :: 0 <= j < |args| ==> argv[j + 1] == Encode(args[j]);
    forall s | s in [command] + args + envVars
      ensures 0 !in Encode(s) && Decode(Encode(s)) == Some(s)
    {
      ZeroByteIffNul(s);
      DecodeEncode(s);
    }
  }

  /** One of the conversion loops of `exec::run`: each string is turned into
      a C string in order, stopping at the first that holds a NUL. */
  method ConvertAll(strs: seq<string>) returns (r: Result<seq<CStr>, nat>)
    ensures r.Err? <==> !NulFree(strs)
    ensures r.Err? ==> FirstNul(strs) == Some(r.error)
    ensures r.Ok? ==> r.value == Encodings(strs)
  {
    var out := [];
    var i := 0;
    while i < |strs|
      invariant 0 <= i <= |strs|
      invariant NulFree(strs[..i])
      invariant out == Encodings(strs[..i])
    {
      var c := CStringNew(strs[i]);
      if c.None? {
        FirstNulAt(strs, i);
        return Err(i);
      }
      assert strs[..i + 1] == strs[..i] + [strs[i]];
      assert c.value == Encode(strs[i]);
      out := out + [c.value];
      i := i + 1;
    }
    assert strs[..i] == strs;
    return Ok(out);
  }

  /** `exec::run`: the command, then the arguments, then the environment. */
  method Run(command: string, args: seq<string>, envVars: seq<string>, execOk: bool)
    returns (r: Result<Image, RunError>)
    ensures r == ExecImage(command, args, envVars, execOk)
  {
    var cmd := CStringNew(command);
    if cmd.None? {
      return Err(BadCommand);
    }
    var argv := ConvertAll([command] + args);
    assert ([command] + args)[1..] == args;
    if argv.Err? {
      assert FirstNul([command] + args) == Some(argv.error);
      assert argv.error > 0;
      assert FirstNul(args) == Some(argv.error - 1);
      return Err(BadArgument(argv.error - 1));
    }
    var envp := ConvertAll(envVars);
    if envp.Err? {
      return Err(BadEnvironment(envp.error));
    }
    if !execOk {
      return Err(ExecFailed);
    }
    return Ok(Image(cmd.value, argv.value, envp.value));
  }

  // ---------------------------------------------------------------------
  // `get_library_dependencies`: one line at a time

  predicate IsParen(c: char) {
    c == '(' || c == ')'
  }

  /** A non-empty path with no parenthesis at either end. */
  predicate EndsNotParen(p: Path) {
    p != [] && !IsParen(p[0]) && !IsParen(p[|p| - 1])
  }

  /** First pass, one line: a line with `=>` names a library as its third
      whitespace-separated token, with parentheses trimmed from both ends;
      an empty result names nothing. */
  function LibraryPath(line: string): (r: Option<Path>)
    ensures r.Some? ==> Contains(line, "=>")
    ensures r.Some? ==> EndsNotParen(r.value)
    ensures r.Some? ==> |SplitWhitespace(line)| >= 3
                        && r.value == TrimMatches(SplitWhitespace(line)[2], IsParen)
  {
    if line == [] || !Contains(line, "=>") then None
    else
      var parts := SplitWhitespace(line);
      ThirdTokenPath(parts)
  }

  /** The third token with parentheses trimmed from both ends, if that
      leaves anything. */
  function ThirdTokenPath(parts: seq<string>): (r: Option<Path>)
    ensures r.Some? ==> EndsNotParen(r.value)
  {
    if |parts| >= 3 then
      var path := TrimMatches(parts[2], IsParen);
      if path != [] then Some(path) else None
    else None
  }

  /** Second pass, one line: a line without `=>` that mentions the dynamic
      loader names it as its first token, if that token is absolute. */
  function LoaderPath(line: string): (r: Option<Path>)
    ensures r.Some? ==> !Contains(line, "=>")
    ensures r.Some? ==> Contains(line, "/lib64/ld-linux") || Contains(line, "/lib/ld-linux")
    ensures r.Some? ==> HasRoot(r.value) && |SplitWhitespace(line)| > 0 && r.value == SplitWhitespace(line)[0]
  {
    if Contains(line, "=>") then None
    else if Contains(line, "/lib64/ld-linux") || Contains(line, "/lib/ld-linux") then
      var parts := SplitWhitespace(line);
      if parts == [] then None
      else
        var path := Trim(parts[0]);
        if path != [] && HasRoot(path) then Some(path) else None
    else None
  }

  /** One pass over the lines: what `extract` finds in each, in line order. */
  function Harvest(lines: seq<string>, extract: string -> Option<Path>): (r: seq<Path>)
    ensures |r| <= |lines|
    ensures forall p :: p in r ==> exists i :: 0 <= i < |lines| && extract(lines[i]) == Some(p)
    ensures forall i :: 0 <= i < |lines| && extract(lines[i]).Some? ==> extract(lines[i]).value in r
    ensures |lines| == 1 ==> r == (if extract(lines[0]).Some? then [extract(lines[0]).value] else [])
  {
    if lines == [] then []
    else
      var rest := Harvest(lines[1..], extract);
      assert forall p :: p in rest ==> exists i :: 0 <= i < |lines| && extract(lines[i]) == Some(p) by {
        forall p | p in rest
          ensures exists i :: 0 <= i < |lines| && extract(lines[i]) == Some(p)
        {
          var i :| 0 <= i < |lines[1..]| && extract(lines[1..][i]) == Some(p);
          assert lines[i + 1] == lines[1..][i];
        }
      }
      assert forall i :: 1 <= i < |lines| ==> lines[i] == lines[1..][i - 1];
      match extract(lines[0])
      case None => rest
      case Some(p) => [p] + rest
  }

  /** A pass over `a + b` is the pass over `a` followed by the pass over
      `b`; with the one-line case above, this fixes both the order and the
      number of the paths found. */
  lemma {:induction false} HarvestAppend(a: seq<string>, b: seq<string>, extract: string -> Option<Path>)
    ensures Harvest(a + b, extract) == Harvest(a, extract) + Harvest(b, extract)
  {
    if a == [] {
      assert a + b == b;
    } else {
      assert (a + b)[0] == a[0];
      assert (a + b)[1..] == a[1..] + b;
      HarvestAppend(a[1..], b, extract);
    }
  }

  // ---------------------------------------------------------------------
  // The set of directories

  /** The parent directory of every path that has one. */
  function ParentsOf(paths: seq<Path>): (r: seq<Path>)
    ensures forall d :: d in r <==> exists i :: 0 <= i < |paths| && Parent(paths[i]) == Some(d)
  {
    if paths == [] then []
    else
      var rest := ParentsOf(paths[1..]);
      assert forall i :: 1 <= i < |paths| ==> paths[i] == paths[1..][i - 1];
      assert forall i :: 0 <= i < |paths| - 1 ==> paths[1..][i] == paths[i + 1];
      match Parent(paths[0])
      case None => rest
      case Some(d) => [d] + rest
  }

  /** `HashSet::insert` for each item in turn, keeping first-insertion order:
      the standard library leaves iteration order unspecified, so only the
      contents and the absence of duplicates carry meaning. */
  function InsertAll(set_: seq<Path>, items: seq<Path>): (r: seq<Path>)
    requires NoDuplicates(set_)
    ensures NoDuplicates(r)
    ensures forall x :: x in r <==> x in set_ || x in items
    decreases |items|
  {
    if items == [] then set_
    else if items[0] in set_ then
      assert forall x :: x in items ==> x == items[0] || x in items[1..];
      InsertAll(set_, items[1..])
    else
      assert forall x :: x in items ==> x == items[0] || x in items[1..];
      InsertAll(set_ + [items[0]], items[1..])
  }

  /** The directories added whenever they exist. */
  const SystemDirs: seq<Path> :=
    ["/lib", "/lib64", "/usr/lib", "/lib/x86_64-linux-gnu", "/usr/lib/x86_64-linux-gnu", "/etc"]

  function ExistingSystemDirs(exists_: Path -> bool): (r: seq<Path>)
    ensures forall d :: d in r <==> d in SystemDirs && exists_(d)
  {
    var keep := (d: Path) => exists_(d);
    Filter(SystemDirs, keep)
  }

  function Filter(s: seq<Path>, keep: Path -> bool): (r: seq<Path>)
    ensures forall x :: x in r <==> x in s && keep(x)
  {
    if s == [] then []
    else
      assert forall x :: x in s ==> x == s[0] || x in s[1..];
      (if keep(s[0]) then [s[0]] else []) + Filter(s[1..], keep)
  }

  /** The directory tail of the result: each parent of a found path, and each
      system directory that exists, once. */
  function Directories(found: seq<Path>, exists_: Path -> bool): (r: seq<Path>)
    ensures NoDuplicates(r)
    ensures forall d :: d in r <==>
      (exists i :: 0 <= i < |found| && Parent(found[i]) == Some(d)) || (d in SystemDirs && exists_(d))
  {
    InsertAll(InsertAll([], ParentsOf(found)), ExistingSystemDirs(exists_))
  }

  /** The list `get_library_dependencies` returns for `ldd`'s output: the
      libraries of the first pass, the loaders of the second, then the
      directories. */
  function ParseLdd(output: string, exists_: Path -> bool): seq<Path> {
    var lines := Lines(output);
    var found := Harvest(lines, LibraryPath) + Harvest(lines, LoaderPath);
    found + Directories(found, exists_)
  }

  /** The shape of the result: the paths found on the lines, in line order
      (libraries before loaders), followed by each needed directory exactly
      once; in particular every found path's directory is in the result. */
  lemma ParseLddShape(output: string, exists_: Path -> bool)
    ensures var lines := Lines(output);
      var found := Harvest(lines, LibraryPath) + Harvest(lines, LoaderPath);
      var r := ParseLdd(output, exists_);
      && |found| <= |r| && r[..|found|] == found
      && NoDuplicates(r[|found|..])
      && (forall d :: d in r[|found|..] <==>
            (exists i :: 0 <= i < |found| && Parent(found[i]) == Some(d)) || (d in SystemDirs && exists_(d)))
      && (forall i :: 0 <= i < |found| && Parent(found[i]).Some? ==> Parent(found[i]).value in r)
  {
    var lines := Lines(output);
    var found := Harvest(lines, LibraryPath) + Harvest(lines, LoaderPath);
    var r := ParseLdd(output, exists_);
    assert r[..|found|] == found;
    assert r[|found|..] == Directories(found, exists_);
    forall i | 0 <= i < |found| && Parent(found[i]).Some?
      ensures Parent(found[i]).value in r
    {
      assert Parent(found[i]).value in r[|found|..];
    }
  }

  /** The outcome of running `ldd` on the binary. */
  datatype LddRun = SpawnFailed | Finished(success: bool, stdout: seq<Byte>)

  datatype LddError = LddNotRun | LddFailed | InvalidUtf8

  /** `get_library_dependencies`. */
  function GetLibraryDependencies(run: LddRun, exists_: Path -> bool): (r: Result<seq<Path>, LddError>)
    ensures r.Ok? <==> run.Finished? && run.success && Decode(run.stdout).Some?
    ensures r == Err(LddNotRun) <==> run.SpawnFailed?
    ensures r == Err(LddFailed) <==> run.Finished? && !run.success
  {
    match run
    case SpawnFailed => Err(LddNotRun)
    case Finished(success, stdout) =>
      if !success then Err(LddFailed)
      else match Decode(stdout)
        case None => Err(InvalidUtf8)
        case Some(text) => Ok(ParseLdd(text, exists_))
  }

  // ---------------------------------------------------------------------
  // What `ldd` prints, and how the parser reads it back

  /** The three kinds of line `ldd` prints for a dynamically linked program:
      `name => path (address)` for a resolved library, `path (address)` for
      the loader, and `name (address)` for the vDSO. */
  datatype LddEntry =
    | Library(name: string, path: Path, address: string)
    | Loader(path: Path, address: string)
    | Vdso(name: string, address: string)

  function EntryLine(e: LddEntry): string {
    match e
    case Library(name, path, address) => ArrowLine(name, path, AddressField(address))
    case Loader(path, address) => "\t" + (path + AddressField(address))
    case Vdso(name, address) => "\t" + (name + AddressField(address))
  }

  /** `\tname => target` followed by `tail`. */
  function ArrowLine(name: string, target: string, tail: string): string {
    "\t" + (name + (" " + ("=>" + (" " + (target + tail)))))
  }

  /** ` (address)`, the end of every line. */
  function AddressField(address: string): (r: string)
    ensures r != [] && r[0] == ' ' && r[|r| - 1] == ')'
  {
    " (" + (address + ")")
  }

  /** An entry whose fields look the way `ldd` prints them: single tokens, a
      library path not wrapped in parentheses, a loader under `/lib64` or
      `/lib` named `ld-linux…`, and no `=` (or, for the vDSO, `/`) where it
      would be mistaken for the markers the parser looks for. */
  predicate WellFormed(e: LddEntry) {
    match e
    case Library(name, path, address) =>
      IsToken(name) && IsToken(path) && IsToken(address)
      && !IsParen(path[0]) && !IsParen(path[|path| - 1])
    case Loader(path, address) =>
      IsToken(path) && IsToken(address) && '=' !in path && '=' !in address
      && (StartsWith(path, "/lib64/ld-linux") || StartsWith(path, "/lib/ld-linux"))
    case Vdso(name, address) =>
      IsToken(name) && IsToken(address)
      && '=' !in name && '=' !in address && '/' !in name && '/' !in address
  }

  /** The first pass takes the word after `=>` from any line `name => target …`,
      whatever follows it, and the second pass ignores such a line. */
  lemma ArrowLineParses(name: string, target: string, tail: string)
    requires IsToken(name) && IsToken(target) && !IsParen(target[0]) && !IsParen(target[|target| - 1])
    requires tail == [] || IsWhitespace(tail[0])
    ensures LibraryPath(ArrowLine(name, target, tail)) == Some(target)
    ensures LoaderPath(ArrowLine(name, target, tail)) == None
  {
    var line := ArrowLine(name, target, tail);
    ArrowLineTokens(name, target, tail);
    ArrowLineHasArrow(name, target, tail);
    LibraryPathIsThirdToken(line, target);
  }

  lemma ArrowLineTokens(name: string, target: string, tail: string)
    requires IsToken(name) && IsToken(target)
    requires tail == [] || IsWhitespace(tail[0])
    ensures |SplitWhitespace(ArrowLine(name, target, tail))| >= 3
    ensures SplitWhitespace(ArrowLine(name, target, tail))[2] == target
  {
    var line := ArrowLine(name, target, tail);
    assert line == ['\t'] + (name + ([' '] + ("=>" + ([' '] + (target + tail)))));
    ArrowIsToken();
    ThreeTokens(name, "=>", target, tail);
    assert SplitWhitespace(line) == [name] + (["=>"] + ([target] + SplitWhitespace(tail)));
  }

  lemma ArrowIsToken()
    ensures IsToken("=>")
  {
    var s := "=>";
    assert forall i :: 0 <= i < |s| ==> s[i] == '=' || s[i] == '>';
  }

  lemma ArrowLineHasArrow(name: string, target: string, tail: string)
    ensures Contains(ArrowLine(name, target, tail), "=>")
  {
    var line := ArrowLine(name, target, tail);
    assert line[|name| + 2..|name| + 4] == "=>";
    ContainsAt(line, "=>", |name| + 2);
  }

  lemma LibraryPathIsThirdToken(line: string, target: string)
    requires Contains(line, "=>")
    requires |SplitWhitespace(line)| >= 3 && SplitWhitespace(line)[2] == target
    requires target != [] && !IsParen(target[0]) && !IsParen(target[|target| - 1])
    ensures LibraryPath(line) == Some(target)
    ensures LoaderPath(line) == None
  {
    assert TrimMatches(target, IsParen) == target;
    LibraryPathIsTrimmedToken(line, target);
  }

  /** The first pass reads the third word of a line with `=>`, parentheses
      trimmed from its ends, whenever that leaves something. */
  lemma LibraryPathIsTrimmedToken(line: string, path: Path)
    requires Contains(line, "=>")
    requires |SplitWhitespace(line)| >= 3 && TrimMatches(SplitWhitespace(line)[2], IsParen) == path
    requires path != []
    ensures LibraryPath(line) == Some(path)
    ensures LoaderPath(line) == None
  {
    assert line != [];
  }

  /** A library written in parentheses, as older `ldd` prints the vDSO
      (`linux-vdso.so.1 => (0x…)`), yields what is inside them: the first
      pass takes that word for a path. */
  lemma ParenthesisedTargetParses(name: string, open: string, target: string, close: string, tail: string)
    requires IsToken(name) && EndsNotParen(target) && IsToken(target)
    requires AllMatch(open, IsParen) && AllMatch(close, IsParen)
    requires tail == [] || IsWhitespace(tail[0])
    ensures LibraryPath(ArrowLine(name, open + (target + close), tail)) == Some(target)
    ensures LoaderPath(ArrowLine(name, open + (target + close), tail)) == None
  {
    var word := open + (target + close);
    assert IsToken(word) by {
      forall k | 0 <= k < |word|
        ensures !IsWhitespace(word[k])
      {
        if k < |open| {
          assert word[k] == open[k];
        } else if k < |open| + |target| {
          assert word[k] == target[k - |open|];
        } else {
          assert word[k] == close[k - |open| - |target|];
        }
      }
    }
    ArrowLineTokens(name, word, tail);
    ArrowLineHasArrow(name, word, tail);
    TrimMatchesWrapped(open, target, close, IsParen);
    LibraryPathIsTrimmedToken(ArrowLine(name, word, tail), target);
  }

  lemma LoaderLineParses(path: Path, address: string)
    requires WellFormed(Loader(path, address))
    ensures LoaderPath(EntryLine(Loader(path, address))) == Some(path)
    ensures LibraryPath(EntryLine(Loader(path, address))) == None
  {
    var line := EntryLine(Loader(path, address));
    var tail := AddressField(address);
    assert line == ['\t'] + (path + tail);
    SplitAfterBlank('\t', path, tail);
    assert SplitWhitespace(line)[0] == path;
    LoaderLineMarkers(path, address);
    assert HasRoot(path) by {
      if StartsWith(path, "/lib64/ld-linux") {
        assert path[0] == path[..|"/lib64/ld-linux"|][0];
      } else {
        assert path[0] == path[..|"/lib/ld-linux"|][0];
      }
    }
    LoaderPathIsFirstToken(line, path);
  }

  lemma LoaderLineMarkers(path: Path, address: string)
    requires WellFormed(Loader(path, address))
    ensures !Contains(EntryLine(Loader(path, address)), "=>")
    ensures Contains(EntryLine(Loader(path, address)), "/lib64/ld-linux")
         || Contains(EntryLine(Loader(path, address)), "/lib/ld-linux")
  {
    var line := EntryLine(Loader(path, address));
    var tail := AddressField(address);
    assert '=' !in tail;
    assert '=' !in line;
    NotContainsWithoutFirstChar(line, "=>");
    if StartsWith(path, "/lib64/ld-linux") {
      assert line[1..1 + |"/lib64/ld-linux"|] == path[..|"/lib64/ld-linux"|];
      ContainsAt(line, "/lib64/ld-linux", 1);
    } else {
      assert line[1..1 + |"/lib/ld-linux"|] == path[..|"/lib/ld-linux"|];
      ContainsAt(line, "/lib/ld-linux", 1);
    }
  }

  lemma LoaderPathIsFirstToken(line: string, path: Path)
    requires !Contains(line, "=>")
    requires Contains(line, "/lib64/ld-linux") || Contains(line, "/lib/ld-linux")
    requires |SplitWhitespace(line)| > 0 && SplitWhitespace(line)[0] == path
    requires IsToken(path) && HasRoot(path)
    ensures LoaderPath(line) == Some(path)
    ensures LibraryPath(line) == None
  {
    assert Trim(path) == path;
  }

  lemma VdsoLineParses(name: string, address: string)
    requires WellFormed(Vdso(name, address))
    ensures LibraryPath(EntryLine(Vdso(name, address))) == None
    ensures LoaderPath(EntryLine(Vdso(name, address))) == None
  {
    var line := EntryLine(Vdso(name, address));
    var tail := AddressField(address);
    assert '=' !in tail && '/' !in tail;
    assert '=' !in line && '/' !in line;
    NotContainsWithoutFirstChar(line, "=>");
    NotContainsWithoutFirstChar(line, "/lib64/ld-linux");
    NotContainsWithoutFirstChar(line, "/lib/ld-linux");
  }

  function EntryLines(es: seq<LddEntry>): (r: seq<string>)
    ensures |r| == |es|
    ensures forall i :: 0 <= i < |r| ==> r[i] == EntryLine(es[i])
  {
    if es == [] then [] else [EntryLine(es[0])] + EntryLines(es[1..])
  }

  /** The library paths of the entries, in order. */
  function LibrariesOf(es: seq<LddEntry>): seq<Path> {
    if es == [] then []
    else (if es[0].Library? then [es[0].path] else []) + LibrariesOf(es[1..])
  }

  /** The loader paths of the entries, in order. */
  function LoadersOf(es: seq<LddEntry>): seq<Path> {
    if es == [] then []
    else (if es[0].Loader? then [es[0].path] else []) + LoadersOf(es[1..])
  }

  /** Each kind of line is read by exactly the pass meant for it. */
  lemma EntryLineParses(e: LddEntry)
    requires WellFormed(e)
    ensures LibraryPath(EntryLine(e)) == if e.Library? then Some(e.path) else None
    ensures LoaderPath(EntryLine(e)) == if e.Loader? then Some(e.path) else None
  {
    match e
    case Library(n, p, a) => ArrowLineParses(n, p, AddressField(a));
    case Loader(p, a) => LoaderLineParses(p, a);
    case Vdso(n, a) => VdsoLineParses(n, a);
  }

  lemma {:induction false} HarvestEntryLines(es: seq<LddEntry>)
    requires forall i :: 0 <= i < |es| ==> WellFormed(es[i])
    ensures Harvest(EntryLines(es), LibraryPath) == LibrariesOf(es)
    ensures Harvest(EntryLines(es), LoaderPath) == LoadersOf(es)
  {
    if es != [] {
      var lines := EntryLines(es);
      EntryLineParses(es[0]);
      assert lines[0] == EntryLine(es[0]);
      assert lines[1..] == EntryLines(es[1..]);
      HarvestEntryLines(es[1..]);
    }
  }

  /** A token holds no newline. */
  lemma TokenHasNoNewline(t: string)
    requires IsToken(t)
    ensures '\n' !in t
  {
  }

  /** A printed line holds no newline and does not end in a carriage return. */
  lemma EntryLineIsOneLine(e: LddEntry)
    requires WellFormed(e)
    ensures '\n' !in EntryLine(e) && StripCr(EntryLine(e)) == EntryLine(e)
  {
    var line := EntryLine(e);
    var field := AddressField(e.address);
    TokenHasNoNewline(e.address);
    assert '\n' !in field;
    match e
    case Library(n, p, a) =>
      TokenHasNoNewline(n);
      TokenHasNoNewline(p);
      assert line == "\t" + (n + (" " + ("=>" + (" " + (p + field)))));
    case Loader(p, a) =>
      TokenHasNoNewline(p);
      assert line == "\t" + (p + field);
    case Vdso(n, a) =>
      TokenHasNoNewline(n);
      assert line == "\t" + (n + field);
  }

  /** `lines` splits a printed report back into its entries' lines. */
  lemma LinesOfReport(es: seq<LddEntry>)
    requires forall i :: 0 <= i < |es| ==> WellFormed(es[i])
    ensures Lines(JoinLines(EntryLines(es))) == EntryLines(es)
  {
    var lines := EntryLines(es);
    forall i | 0 <= i < |lines|
      ensures '\n' !in lines[i] && StripCr(lines[i]) == lines[i]
    {
      EntryLineIsOneLine(es[i]);
    }
    LinesOfJoinLines(lines);
  }

  /** Reading back what `ldd` prints: for a report made of well-formed lines
      the parser returns exactly the listed libraries, in order, then the
      loader, then the directories; nothing from a vDSO line. */
  lemma LddReportRoundTrip(es: seq<LddEntry>, exists_: Path -> bool)
    requires forall i :: 0 <= i < |es| ==> WellFormed(es[i])
    ensures var found := LibrariesOf(es) + LoadersOf(es);
      var r := ParseLdd(JoinLines(EntryLines(es)), exists_);
      |found| <= |r| && r[..|found|] == found
  {
    LinesOfReport(es);
    HarvestEntryLines(es);
    ParseLddShape(JoinLines(EntryLines(es)), exists_);
  }

  /** End to end: when `ldd` succeeds and prints such a report, the
      dependencies are the listed libraries and the loader, in order,
      followed by the directories. */
  lemma LddOutputRoundTrip(es: seq<LddEntry>, exists_: Path -> bool)
    requires forall i :: 0 <= i < |es| ==> WellFormed(es[i])
    ensures var r := GetLibraryDependencies(Finished(true, Encode(JoinLines(EntryLines(es)))), exists_);
      var found := LibrariesOf(es) + LoadersOf(es);
      r.Ok? && |found| <= |r.value| && r.value[..|found|] == found
  {
    var text := JoinLines(EntryLines(es));
    DecodeEncode(text);
    assert GetLibraryDependencies(Finished(true, Encode(text)), exists_) == Ok(ParseLdd(text, exists_));
    LddReportRoundTrip(es, exists_);
  }

  /** As written, a library `ldd` cannot resolve (`name => not found`) is
      reported as the relative path `not`, whose parent is the empty path. */
  lemma MissingLibraryLine(name: string)
    requires IsToken(name)
    ensures LibraryPath(ArrowLine(name, "not", " found")) == Some("not")
    ensures Parent("not") == Some([])
  {
    var s := "not";
    assert forall i :: 0 <= i < |s| ==> 'a' <= s[i] <= 'z';
    ArrowLineParses(name, "not", " found");
    ParentOfNot();
  }

  lemma ParentOfNot()
    ensures Parent("not") == Some([])
  {
    assert BackSegment("not", 0) == ("not", 3);
  }
}
