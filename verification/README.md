# rstrict, modelled in Dafny

rstrict is a small Linux launcher. It resolves a command on the search path,
builds a Landlock ruleset from its `--ro`, `--rox`, `--rw`, `--rwx`,
`--bind-tcp` and `--connect-tcp` grants, restricts itself with that ruleset
and then `execvpe`s the command. Two options widen the read-execute grants:
`--add-exec` adds the binary itself, and `--ldd` adds every library,
loader and library directory that `ldd` reports for the binary. `--env`
flags choose the environment of the new program.

This project is a functional model of that core, with proofs about it:

| file | module | models |
|---|---|---|
| `base.dfy` | `Base` | `Option`, `Result`, duplicate-freedom |
| `text.dfy` | `Text` | the Rust string operations the `ldd` parser uses: `contains`, `lines`, `split_whitespace`, `trim_matches`, `trim` |
| `paths.dfy` | `Paths` | `Path::parent` on Unix |
| `utf8.dfy` | `Utf8` | `String::from_utf8` and the UTF-8 bytes of a `&str` |
| `access.dfy` | `Access` | Landlock rights, and the table from access level and directory-ness to rights |
| `sandbox.dfy` | `Sandbox` | `sandbox::Config` and `sandbox::apply` |
| `environment.dfy` | `Environment` | `utils::process_environment_vars` |
| `exec.dfy` | `Exec` | `exec::run` (C-string conversion, argument and environment vectors) and `exec::get_library_dependencies` |
| `launcher.dfy` | `Launcher` | `main`: command split, configuration assembly, order of the steps, exit status |

The operating system is replaced by values the model receives:

- `PathFd::new` succeeding is `FileSystem.canOpen`, and `is_directory` is
  `FileSystem.isDir`.
- The Landlock calls that can fail are fields of `Landlock`:
  - `handle_access` together with `create` is `createOk`;
  - each `add_rule` is `accepts`;
  - `restrict_self` and the status it reports are `restrict`.
- The `ldd` run is an `LddRun`: it either failed to spawn, or finished with
  an exit status and stdout bytes.
- `Path::exists` is `exists_`, `which` is a partial function, and the
  process environment is a map.
- Whether `execvpe` replaces the process is `execOk`.

`Sandbox.Apply` follows `apply` loop by loop and records the Landlock calls
it makes. `Sandbox.Build` describes the same ruleset declaratively, and
`ApplyMatchesBuild` proves that the two agree. In the same way,
`Launcher.Launch` records the steps `main` takes as events, so their order
can be stated.

## Model

| member | source | states |
|---|---|---|
| Sandbox.NewConfig | src/sandbox/mod.rs:24-36 | A new configuration declares no path or port, leaves nothing unrestricted and is not best-effort |
| Sandbox.HandledFs | src/sandbox/mod.rs:93-97 | The ruleset handles no filesystem right exactly when the filesystem is unrestricted; otherwise it handles every right, since ABI 5 knows them all |
| Sandbox.HandledNet | src/sandbox/mod.rs:99-105 | TCP bind and connect are each handled exactly when the network is not unrestricted |
| Access.FromAll | src/sandbox/mod.rs:94 | `from_all(abi)` holds a right exactly when the ABI version introduced it |
| Access.Grant | src/sandbox/mod.rs:113-201 | A path rule always grants ReadFile; it grants ReadDir iff the path is a directory, Execute iff the level executes, and WriteFile iff the level writes; it never grants Refer, Truncate or IoctlDev; a non-writing level grants at most read, list and execute; on a file it grants at most read, write and execute |
| Access.GrantReadOnly | src/sandbox/mod.rs:167-172 | Read-only is exactly {ReadFile}, plus ReadDir on a directory |
| Access.GrantReadWrite | src/sandbox/mod.rs:186-201 | Read-write on a file is exactly {ReadFile, WriteFile}; on a directory it adds ReadDir and the nine remove and make rights |
| Access.GrantLattice | src/sandbox/mod.rs:117-153 | Read-execute is read-only plus Execute, read-write-execute is read-write plus Execute, and ro ⊆ rox, ro ⊆ rw ⊆ rwx |
| Sandbox.AddRulesSucceeds | src/sandbox/mod.rs:113-130 | A rule loop gets through all its entries iff every path opens and every rule is accepted; it then has made one open per path and one add_rule per entry, in order, and added exactly the entries' rules |
| Sandbox.AddRulesStopsAtUnopenable | src/sandbox/mod.rs:126-129 | When the kernel accepts every rule added before it, the loop fails with the first path that cannot be opened |
| Sandbox.AddRulesCalls | src/sandbox/mod.rs:113-223 | A loop only appends calls, and each call it appends opens an entry's path or adds an entry's rule |
| Sandbox.AddRulesFailure | src/sandbox/mod.rs:125-129 | A loop failure names an entry whose path cannot be opened or whose rule was rejected |
| Sandbox.AddRulesPortsOnly | src/sandbox/mod.rs:212-224 | The port loops do not depend on the filesystem |
| Sandbox.ApplyRulesIsOneLoop | src/sandbox/mod.rs:89-227 | The six loops together behave as one loop over all grants in the order rox, rwx, ro, rw, bind, connect |
| Sandbox.DefaultBranchAgrees | src/sandbox/mod.rs:51-87 | The early return for an empty configuration does exactly what the general path does |
| Sandbox.ApplyIsOneLoop | src/sandbox/mod.rs:44-236 | `apply` fails at once if the ruleset cannot be created, and otherwise runs the single loop and then restricts |
| Sandbox.LoopMatchesBuild | src/sandbox/mod.rs:111-224 | The loop gets through iff the declarative ruleset exists and all its rules are accepted; it then collects exactly those rules; it never restricts; when every rule before the first unopenable path is accepted, it fails on that path |
| Sandbox.ApplyMatchesBuild | src/sandbox/mod.rs:44-236 | `apply` succeeds iff the ruleset can be created, every declared path opens, every rule is accepted and `restrict_self` reports a status, whichever status it is; it then enforces exactly the declarative ruleset |
| Sandbox.RestrictSelfLast | src/sandbox/mod.rs:227 | `restrict_self` is called iff every earlier step succeeded, and it is then the last call |
| Sandbox.UnopenablePathFails | src/sandbox/mod.rs:111-209 | If a declared path cannot be opened, `apply` fails without calling `restrict_self`; when the kernel accepts every rule added before that path, the error names the first such path |
| Sandbox.UnopenableBeforePort | src/sandbox/mod.rs:163-224 | With one read-only path, which cannot be opened, and any bind and connect ports, `apply` fails with that path's error whatever the kernel would say about the port rules |
| Sandbox.RuleOrder | src/sandbox/mod.rs:111-224 | On success the rules are the rox, rwx, ro and rw path rules, each list in order, then one bind rule per bind port and one connect rule per connect port |
| Sandbox.UnrestrictedFilesystem | src/sandbox/mod.rs:93-111 | With the filesystem unrestricted, no path is opened and no path rule is added; `apply` cannot fail on a path, handles no filesystem right, and does not depend on the filesystem at all |
| Sandbox.UnrestrictedNetwork | src/sandbox/mod.rs:99-105 | With the network unrestricted, no port rule is added, and on success no TCP right is handled and every rule is a path rule |
| Sandbox.RulesWithinHandled | src/sandbox/mod.rs:93-224 | Every enforced rule allows only rights its ruleset handles, and no path rule grants Refer, Truncate or IoctlDev |
| Sandbox.BestEffortIgnored | src/sandbox/mod.rs:44-236 | Flipping `best_effort` does not change anything `apply` does |
| Sandbox.RequestsMonotone | src/sandbox/mod.rs:111-224 | A configuration whose lists are sub-lists of another's asks for a subset of its grants |
| Sandbox.BuildMonotone | src/sandbox/mod.rs:111-224 | Granting less never makes the ruleset harder to build: a narrower configuration builds whenever the wider one does, with the same handled rights and a subset of its rules |
| Environment.Resolve | src/utils.rs:15-22 | Every kept flag becomes a string containing '=' |
| Environment.ProcessEnvironmentVars | src/utils.rs:10-26 | The result is no longer than the flags, and every entry contains '=' |
| Environment.Kept | src/utils.rs:13-23 | The flags that survive are exactly those that carry a value or name a defined key |
| Environment.ProcessIsResolveOfKept | src/utils.rs:13-25 | The result is the surviving flags, each resolved, in input order, and its length is the number of flags less the bare keys that are not defined |
| Environment.ProcessAppend | src/utils.rs:13-25 | Flags are processed one at a time, so concatenated flag lists give concatenated results |
| Environment.SingleFlag | src/utils.rs:15-22 | Each of the three cases for a single flag |
| Environment.RepeatedKeyKept | src/utils.rs:13-23 | Nothing is deduplicated: naming a defined key twice gives two entries |
| Environment.ExampleWithValues | src/utils.rs:34-41 | The module's test: two KEY=VALUE flags come back unchanged |
| Environment.ExampleFromEnvironment | src/utils.rs:44-54 | The module's test: a bare key defined in the environment becomes KEY=value |
| Environment.ExampleMissing | src/utils.rs:57-64 | The module's test: a bare key not in the environment gives an empty result |
| Environment.ExampleMixed | src/utils.rs:67-83 | The module's test: a value flag, a defined key and a missing key give the first two, in order |
| Utf8.DecodeEncode | src/exec.rs:60 | Decoding the UTF-8 bytes of a string gives the string back |
| Utf8.EncodeDecode | src/exec.rs:60 | Whatever `from_utf8` accepts is exactly the encoding of what it returns |
| Utf8.ZeroByteIffNul | src/exec.rs:12 | A string's bytes hold a zero byte exactly when it holds a NUL character |
| Exec.CStringNew | src/exec.rs:12 | `CString::new` fails exactly when the string holds a NUL; otherwise its bytes hold no zero and decode to the string |
| Exec.FirstNul | src/exec.rs:18-30 | The first string that holds a NUL: none iff all are NUL-free; otherwise every string before it is NUL-free |
| Exec.ExecImage | src/exec.rs:7-41 | `run` reaches `execvpe` iff no string holds a NUL, and succeeds iff `execvpe` does; the error names the command, the first bad argument or the first bad environment string, in that order; argv is the command followed by the arguments, and argv and envp decode back to the strings given |
| Exec.ConvertAll | src/exec.rs:18-30 | A conversion loop fails exactly when some string holds a NUL, at the first such index, and otherwise yields the encodings of all strings in order |
| Exec.Run | src/exec.rs:7-41 | The loops of `run` compute what `ExecImage` describes |
| Exec.LibraryPath | src/exec.rs:65-77 | The first pass takes a path only from a line containing "=>" with at least three words, and the path is the third word with parentheses trimmed from both ends, non-empty and with no parenthesis at either end; with `LibraryPathIsTrimmedToken` this is an iff |
| Exec.LibraryPathIsTrimmedToken | src/exec.rs:67-77 | A line containing "=>" whose third word, trimmed of parentheses, is non-empty yields exactly that trimmed word in the first pass and nothing in the second |
| Exec.ParenthesisedTargetParses | src/exec.rs:72-77 | A `name => (target)` line, with any run of parentheses around a target whose own ends are not parentheses, yields the target without them |
| Exec.LoaderPath | src/exec.rs:89-98 | The second pass takes a path only from a line without "=>" that mentions the dynamic loader; the path is the line's first token and is absolute |
| Exec.Harvest | src/exec.rs:65-108 | A pass returns only paths some line yields and every path a line yields, at most one per line; on one line it returns exactly that line's path, if any |
| Exec.HarvestAppend | src/exec.rs:65-108 | A pass over two runs of lines is the pass over the first followed by the pass over the second, so paths come in line order, one per yielding line |
| Exec.ParentsOf | src/exec.rs:79-83 | The parents collected are exactly the parents of the found paths |
| Exec.InsertAll | src/exec.rs:81-122 | Inserting into the directory set keeps it duplicate-free and adds exactly the inserted items |
| Exec.ExistingSystemDirs | src/exec.rs:111-124 | A system directory is added exactly when it exists |
| Exec.Directories | src/exec.rs:62-129 | The directory tail holds each parent of a found path and each existing system directory, each once |
| Exec.ParseLddShape | src/exec.rs:61-129 | The result is the library paths in line order, then the loader paths in line order, then the duplicate-free directory tail; every found path's parent is in the result |
| Exec.GetLibraryDependencies | src/exec.rs:44-60 | The result is Ok iff `ldd` ran, exited successfully and printed valid UTF-8; each failure has its own error |
| Exec.ArrowLineParses | src/exec.rs:67-77 | A line `name => path …` yields its path in the first pass and nothing in the second |
| Exec.LoaderLineParses | src/exec.rs:89-98 | A loader line `path (address)` yields its path in the second pass and nothing in the first |
| Exec.VdsoLineParses | src/exec.rs:67-98 | A vDSO line `name (address)` yields nothing in either pass |
| Exec.EntryLineParses | src/exec.rs:65-108 | Each kind of `ldd` line is read by exactly the pass meant for it |
| Exec.HarvestEntryLines | src/exec.rs:65-108 | Over a report of well-formed lines, the first pass returns the libraries and the second the loaders, in order |
| Exec.LddReportRoundTrip | src/exec.rs:61-129 | Parsing a printed report returns its libraries, then its loader, in order, before the directories |
| Exec.LddOutputRoundTrip | src/exec.rs:44-132 | Whenever `ldd` succeeds and prints such a report, the dependencies begin with its libraries and then its loader |
| Exec.MissingLibraryLine | src/exec.rs:72-83 | As written, a line `name => not found` yields the relative path `not`, whose parent is the empty path |
| Text.Lines | src/exec.rs:65 | No line that `lines` returns holds a newline |
| Text.SplitWhitespace | src/exec.rs:72 | Every word `split_whitespace` returns is a non-empty run of non-whitespace characters |
| Text.LinesOfJoinLines | src/exec.rs:65 | `lines` recovers the lines a tool printed, when none holds a newline or ends in a carriage return |
| Text.SplitLeadingToken | src/exec.rs:72 | Whitespace followed by a token splits into that token and the split of the rest |
| Text.TrimMatches | src/exec.rs:74 | The result is a slice of the input with only matching characters removed from either end; neither of its ends matches, and a string whose ends do not match is left unchanged |
| Text.TrimMatchesWrapped | src/exec.rs:74 | Trimming a string wrapped in matching characters, whose own ends do not match, gives back exactly the string |
| Paths.Parent | src/exec.rs:79 | A parent is a proper prefix of the path, and the parent of an absolute path is absolute |
| Paths.ParentOfJoin | src/exec.rs:79 | The parent of a plain absolute directory joined with one name is that directory |
| Launcher.Assemble | src/main.rs:130-157 | The configuration copies every path list, port list and flag from the command line; the read-execute list is the command line's, then the binary under `--add-exec`, then the `ldd` paths in order |
| Launcher.Launch | src/main.rs:110-126 | Every exit has status 1; there are no steps exactly when the command is empty; otherwise the first step looks the command up |
| Launcher.LaunchSucceeds | src/main.rs:110-178 | The process is replaced iff there is a command, `which` finds it, `ldd` (if asked for) succeeds, `apply` succeeds and `run` succeeds; the enforced ruleset is then the one the assembled configuration describes |
| Launcher.ReplacedImage | src/main.rs:116-127 | The program loaded is the resolved binary; argv is its path followed by the command's remaining words, and envp is the resolved `--env` flags |
| Launcher.RunOnlyAfterRestrict | src/main.rs:169-178 | `run` is reached only after `apply` succeeded, as the last step, directly after `restrict_self` |
| Launcher.EnvironmentBeforeSandbox | src/main.rs:166-169 | Every environment read precedes every Landlock call |
| Launcher.DependencyFailureStopsEarly | src/main.rs:150-161 | When `ldd` fails, the launcher exits with status 1 after the lookup and the `ldd` run, before any Landlock call |
| Launcher.BinaryAndLibrariesGranted | src/main.rs:144-157 | On success, and unless the filesystem is unrestricted, the binary under `--add-exec` and every `ldd` path under `--ldd` has a rule granting read and execute |
| Launcher.Sandboxed | src/main.rs:165-178 | After the configuration is assembled, a failure of `apply` or `run` exits with status 1, and the steps taken before assembly remain the start of the trace |
| Launcher.LaunchIsSandboxed | src/main.rs:110-178 | Once the binary is found and any `ldd` run has succeeded, the launch is the sandboxing step on the assembled configuration, with the command's remaining words as arguments |
| Launcher.NoRunBeforeExec | src/main.rs:165-172 | Neither the environment reads nor the Landlock calls run the binary |
| Launcher.RestrictSelfAfterSuccess | src/sandbox/mod.rs:227-235 | A successful `apply` has made at least one call, and its last call is `restrict_self` |
| Launcher.SandboxedRunsLast | src/main.rs:169-178 | Once the configuration is assembled, the binary is run only after a successful `apply`, as the last event, right after `restrict_self` |
| Launcher.SandboxedReadsFirst | src/main.rs:166-172 | Once the configuration is assembled, environment reads come before Landlock calls |
| Launcher.ReadExecuteGranted | src/main.rs:169-172 | A successful sandbox grants read and execute on every read-execute path of the configuration |

## Left out

- Command-line parsing with `clap`, `LogLevel`, `to_filter` and the logger: they only produce the `Cli` value and log lines. `Launcher.Cli` is the parsed result without the log level.
- Landlock itself is abstract. The model covers neither the kernel's enforcement nor the crate's ABI compatibility handling. `handle_access` and `create` are folded into one success flag, because either failure ends `apply` the same way before any rule is added.
- `PathFd::new`, `fs::metadata`, `Path::exists`, `which`, `env::var`, spawning `ldd` and `execvpe` are oracles, and their effects are not modelled. `execvpe`'s own search of `PATH` is not modelled either: the file passed is already the resolved path.
- The `createOk` flag of `Landlock`: the success of `create` does not depend on the configuration. The `landlock` crate's `create` refuses a ruleset that handles no access at all, so with both `--unrestricted-filesystem` and `--unrestricted-network` the source always fails there; the model lets the oracle decide instead.
- The `Env` map: the environment is any map from strings to strings, so it may hold keys that `env::var` can never look up, such as the empty key or a key containing NUL or `=`.
- `to_string_lossy` on the resolved binary path: paths are modelled as strings, so the lossy conversion is the identity here.
- `env::var` failing because a value is not valid Unicode: the model treats such a key as not being in the environment, which is what the source does with it.
- Exec.InsertAll: models the `HashSet` of directories as a duplicate-free list in first-insertion order. The standard library leaves the iteration order unspecified, so the contracts speak only of contents and of each directory appearing once, never of the order of the directory tail.
- Exec.LddOutputRoundTrip: it describes the paths taken from the lines, in order. It does not describe the order of the directory tail that follows them, because that order is unspecified.
- `Path::parent` returning a path that `to_str` cannot convert: with paths as strings, the conversion always succeeds.
- `Stage` records where a launch stopped, and `Exit` keeps status 1 for each stop. The error messages themselves are not modelled.
- Where the specification and the code differ, the model follows the code:
  - a kernel without Landlock is not fatal: `apply` succeeds for every status `restrict_self` reports, `NotEnforced` included, and the command then runs unconfined (`Sandbox.ApplyMatchesBuild`, `Launcher.LaunchSucceeds`);
  - the ABI is fixed at version 5 and never negotiated;
  - no error is raised when the kernel lacks network support, since no such check exists;
  - repeated `--env` keys each give an entry;
  - `argv[0]` is the resolved path of the binary, not the word typed.
- `Sandbox.NewConfigDeniesEverything` is stated but left out of the table, because Dafny proves it from the definitions alone.
- The quirk that `ldd`'s `name => not found` line makes `--ldd` grant the relative path `not` and the empty path is recorded by `Exec.MissingLibraryLine` and not corrected: it is how the code behaves, and whether the authors meant it cannot be told from the code.
