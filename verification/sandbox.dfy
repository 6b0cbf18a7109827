/** `sandbox::apply`: turning the launcher's path and port grants into a
    Landlock ruleset and restricting the current process with it.

    The operating system is replaced by oracles: `FileSystem.canOpen` stands
    for `PathFd::new` succeeding, `FileSystem.isDir` for `is_directory`, and
    `Landlock` for the crate calls that can fail (`handle_access` together
    with `create`, each `add_rule`, and `restrict_self` with the status it
    reports). `Apply` follows the source loop by loop and records the
    Landlock calls it makes; `Build` is the declarative description of the
    ruleset, and `ApplyMatchesBuild` proves that the two agree. */
module Sandbox {
  import opened Base
  import opened Access
  import opened Paths

  type Port = p: int | 0 <= p < 0x1_0000

  /** `sandbox::Config`. */
  datatype Config = Config(
    readOnly: seq<Path>,
    readWrite: seq<Path>,
    readExec: seq<Path>,
    readWriteExec: seq<Path>,
    bindTcp: seq<Port>,
    connectTcp: seq<Port>,
    bestEffort: bool,
    unrestrictedFs: bool,
    unrestrictedNet: bool)

  /** No path or port is declared and neither category is left unrestricted. */
  predicate DeclaresNothing(c: Config) {
    && c.readOnly == [] && c.readWrite == [] && c.readExec == [] && c.readWriteExec == []
    && c.bindTcp == [] && c.connectTcp == []
    && !c.unrestrictedFs && !c.unrestrictedNet
  }

  /** `Config::new`: nothing granted, nothing left unrestricted. */
  function NewConfig(): (c: Config)
    ensures DeclaresNothing(c) && !c.bestEffort
  {
    Config([], [], [], [], [], [], false, false, false)
  }

  /** A Landlock rule: `PathBeneath` grants rights on a file or directory
      hierarchy, `NetPort` grants one TCP right on a port. */
  datatype Rule =
    | PathBeneath(path: Path, allowed: set<AccessFs>)
    | NetPort(port: Port, allowedNet: AccessNet)

  /** The ruleset handed to `restrict_self`: the categories it handles (any
      right not handled stays unrestricted) and the rules that allow some of
      the handled rights again. */
  datatype Ruleset = Ruleset(handledFs: set<AccessFs>, handledNet: set<AccessNet>, rules: seq<Rule>)

  /** What the launcher can learn about paths. */
  datatype FileSystem = FileSystem(canOpen: Path -> bool, isDir: Path -> bool)

  /** `RulesetStatus` as reported by `restrict_self`. */
  datatype Status = FullyEnforced | PartiallyEnforced | NotEnforced

  /** The outcome of every Landlock call that `apply` propagates with `?`. */
  datatype Landlock = Landlock(createOk: bool, accepts: Rule -> bool, restrict: Option<Status>)

  /** The calls `apply` makes, in order. */
  datatype Call = OpenPath(path: Path) | AddRule(rule: Rule) | RestrictSelf

  datatype ApplyError =
    | CreateFailed
    | PathInaccessible(path: Path)
    | RuleRejected(rule: Rule)
    | RestrictFailed

  datatype Enforcement = Enforcement(ruleset: Ruleset, status: Status)

  datatype Applied = Applied(calls: seq<Call>, outcome: Result<Enforcement, ApplyError>)

  /** A grant waiting to become a rule. */
  datatype Request = PathRequest(path: Path, level: Level) | PortRequest(port: Port, net: AccessNet)

  function PathRequests(paths: seq<Path>, level: Level): (r: seq<Request>)
    ensures |r| == |paths|
    ensures forall i :: 0 <= i < |r| ==> r[i] == PathRequest(paths[i], level)
  {
    if paths == [] then [] else [PathRequest(paths[0], level)] + PathRequests(paths[1..], level)
  }

  function PortRequests(ports: seq<Port>, net: AccessNet): (r: seq<Request>)
    ensures |r| == |ports|
    ensures forall i :: 0 <= i < |r| ==> r[i] == PortRequest(ports[i], net)
  {
    if ports == [] then [] else [PortRequest(ports[0], net)] + PortRequests(ports[1..], net)
  }

  /** The filesystem rights the ruleset handles (lines 93-97). */
  function HandledFs(c: Config): (r: set<AccessFs>)
    ensures r == {} <==> c.unrestrictedFs
    ensures !c.unrestrictedFs ==> forall a :: a in r
  {
    FromAllV5IsEverything();
    assert ReadFile in FromAll(V5);
    if !c.unrestrictedFs then FromAll(V5) else {}
  }

  /** The TCP rights the ruleset handles (lines 100-105). */
  function HandledNet(c: Config): (r: set<AccessNet>)
    ensures BindTcp in r <==> !c.unrestrictedNet
    ensures ConnectTcp in r <==> !c.unrestrictedNet
  {
    if !c.unrestrictedNet then {BindTcp, ConnectTcp} else {}
  }

  function RuleFor(req: Request, isDir: Path -> bool): Rule {
    match req
    case PathRequest(p, level) => PathBeneath(p, Grant(level, isDir(p)))
    case PortRequest(port, net) => NetPort(port, net)
  }

  /** The calls made for a request that goes through. */
  function CallsFor(req: Request, isDir: Path -> bool): seq<Call> {
    (if req.PathRequest? then [OpenPath(req.path)] else []) + [AddRule(RuleFor(req, isDir))]
  }

  // ---------------------------------------------------------------------
  // The source, loop by loop

  /** The state threaded through the loops of `apply`: calls made so far,
      rules added so far, and the error that ended the loops, if any. */
  datatype Progress = Progress(calls: seq<Call>, rules: seq<Rule>, failure: Option<ApplyError>)

  /** One `for` loop of `apply`: open each path (a port needs nothing
      opened), build its rule, add it; stop at the first failure. */
  function AddRules(st: Progress, reqs: seq<Request>, fs: FileSystem, accepts: Rule -> bool): Progress
    decreases |reqs|
  {
    if st.failure.Some? || reqs == [] then st
    else
      var req := reqs[0];
      if req.PathRequest? && !fs.canOpen(req.path) then
        Progress(st.calls + [OpenPath(req.path)], st.rules, Some(PathInaccessible(req.path)))
      else
        var rule := RuleFor(req, fs.isDir);
        var calls := st.calls + CallsFor(req, fs.isDir);
        if !accepts(rule) then Progress(calls, st.rules, Some(RuleRejected(rule)))
        else AddRules(Progress(calls, st.rules + [rule], None), reqs[1..], fs, accepts)
  }

  /** The final `restrict_self`, reached with the complete ruleset. */
  function Restrict(calls: seq<Call>, rs: Ruleset, result: Option<Status>): Applied {
    Applied(calls + [RestrictSelf],
      match result
      case None => Err(RestrictFailed)
      case Some(status) => Ok(Enforcement(rs, status)))
  }

  /** Lines 52-87: with nothing declared, handle everything and restrict at once. */
  function ApplyDefault(c: Config, landlock: Landlock): Applied {
    if !landlock.createOk then Applied([], Err(CreateFailed))
    else Restrict([], Ruleset(HandledFs(c), HandledNet(c), []), landlock.restrict)
  }

  /** Lines 89-235: the four path loops, then the two port loops, then
      `restrict_self`. */
  function ApplyRules(c: Config, fs: FileSystem, landlock: Landlock): Applied {
    if !landlock.createOk then Applied([], Err(CreateFailed))
    else
      var accepts := landlock.accepts;
      var st0 := Progress([], [], None);
      var st1 :=
        if c.unrestrictedFs then st0
        else
          var s1 := AddRules(st0, PathRequests(c.readExec, ReadExecute), fs, accepts);
          var s2 := AddRules(s1, PathRequests(c.readWriteExec, ReadWriteExecute), fs, accepts);
          var s3 := AddRules(s2, PathRequests(c.readOnly, ReadOnly), fs, accepts);
          AddRules(s3, PathRequests(c.readWrite, ReadWrite), fs, accepts);
      var st2 :=
        if c.unrestrictedNet then st1
        else
          var s4 := AddRules(st1, PortRequests(c.bindTcp, BindTcp), fs, accepts);
          AddRules(s4, PortRequests(c.connectTcp, ConnectTcp), fs, accepts);
      Finish(c, st2, landlock.restrict)
  }

  /** After the loops: report their failure, or restrict with the rules added. */
  function Finish(c: Config, st: Progress, result: Option<Status>): Applied {
    match st.failure
    case Some(e) => Applied(st.calls, Err(e))
    case None => Restrict(st.calls, Ruleset(HandledFs(c), HandledNet(c), st.rules), result)
  }

  /** `sandbox::apply`. `bestEffort` is never consulted. */
  function Apply(c: Config, fs: FileSystem, landlock: Landlock): Applied {
    if DeclaresNothing(c) then ApplyDefault(c, landlock) else ApplyRules(c, fs, landlock)
  }

  // ---------------------------------------------------------------------
  // The ruleset, described declaratively

  /** Every grant in the order `apply` adds it: read-execute, read-write-
      execute, read-only, read-write paths, then bind and connect ports; a
      category left unrestricted contributes nothing. */
  function Requests(c: Config): seq<Request> {
    PathRequestsOf(c) + PortRequestsOf(c)
  }

  function PathRequestsOf(c: Config): seq<Request> {
    if c.unrestrictedFs then []
    else
      PathRequests(c.readExec, ReadExecute) + PathRequests(c.readWriteExec, ReadWriteExecute)
      + PathRequests(c.readOnly, ReadOnly) + PathRequests(c.readWrite, ReadWrite)
  }

  function PortRequestsOf(c: Config): seq<Request> {
    if c.unrestrictedNet then []
    else PortRequests(c.bindTcp, BindTcp) + PortRequests(c.connectTcp, ConnectTcp)
  }

  function RulesFor(reqs: seq<Request>, isDir: Path -> bool): (r: seq<Rule>)
    ensures |r| == |reqs|
    ensures forall i :: 0 <= i < |r| ==> r[i] == RuleFor(reqs[i], isDir)
  {
    if reqs == [] then [] else [RuleFor(reqs[0], isDir)] + RulesFor(reqs[1..], isDir)
  }

  function AllCallsFor(reqs: seq<Request>, isDir: Path -> bool): seq<Call> {
    if reqs == [] then [] else CallsFor(reqs[0], isDir) + AllCallsFor(reqs[1..], isDir)
  }

  predicate AllOpenable(reqs: seq<Request>, canOpen: Path -> bool) {
    forall i :: 0 <= i < |reqs| && reqs[i].PathRequest? ==> canOpen(reqs[i].path)
  }

  predicate AllAccepted(rules: seq<Rule>, accepts: Rule -> bool) {
    forall i :: 0 <= i < |rules| ==> accepts(rules[i])
  }

  /** The first declared path that cannot be opened. */
  function FirstUnopenable(reqs: seq<Request>, canOpen: Path -> bool): (r: Option<Path>)
    ensures r.None? <==> AllOpenable(reqs, canOpen)
    ensures r.Some? ==> exists i :: 0 <= i < |reqs| && reqs[i].PathRequest? && reqs[i].path == r.value
                                    && !canOpen(r.value) && AllOpenable(reqs[..i], canOpen)
  {
    if reqs == [] then None
    else if reqs[0].PathRequest? && !canOpen(reqs[0].path) then
      assert AllOpenable(reqs[..0], canOpen);
      Some(reqs[0].path)
    else
      var r := FirstUnopenable(reqs[1..], canOpen);
      assert forall i :: 1 <= i <= |reqs| ==> reqs[..i] == [reqs[0]] + reqs[1..][..i - 1];
      assert forall i :: 1 <= i < |reqs| ==> reqs[i] == reqs[1..][i - 1];
      r
  }

  /** The position of the first declared path that cannot be opened. */
  function FirstUnopenableAt(reqs: seq<Request>, canOpen: Path -> bool): (r: Option<nat>)
    ensures r.None? <==> FirstUnopenable(reqs, canOpen).None?
    ensures r.Some? ==> r.value < |reqs| && reqs[r.value].PathRequest?
                        && FirstUnopenable(reqs, canOpen) == Some(reqs[r.value].path)
  {
    if reqs == [] then None
    else if reqs[0].PathRequest? && !canOpen(reqs[0].path) then Some(0)
    else match FirstUnopenableAt(reqs[1..], canOpen)
      case None => None
      case Some(i) =>
        assert reqs[1..][i] == reqs[i + 1];
        Some(i + 1)
  }

  /** Some declared path cannot be opened, and the kernel accepts every rule
      the loops add before they reach it. */
  predicate NoRejectionFirst(reqs: seq<Request>, fs: FileSystem, accepts: Rule -> bool) {
    match FirstUnopenableAt(reqs, fs.canOpen)
    case None => false
    case Some(i) => AllAccepted(RulesFor(reqs[..i], fs.isDir), accepts)
  }

  /** The ruleset a configuration calls for, or the first path that cannot
      be opened. */
  function Build(c: Config, fs: FileSystem): Result<Ruleset, Path> {
    var reqs := Requests(c);
    match FirstUnopenable(reqs, fs.canOpen)
    case Some(p) => Err(p)
    case None => Ok(Ruleset(HandledFs(c), HandledNet(c), RulesFor(reqs, fs.isDir)))
  }

  // ---------------------------------------------------------------------
  // The loops, one request at a time

  /** A call that one of `reqs` accounts for: opening its path or adding its rule. */
  predicate CallFrom(call: Call, reqs: seq<Request>, isDir: Path -> bool) {
    exists j :: 0 <= j < |reqs| &&
      ((reqs[j].PathRequest? && call == OpenPath(reqs[j].path)) || call == AddRule(RuleFor(reqs[j], isDir)))
  }

  /** Running the loops over `a` and then over `b` is one loop over `a + b`. */
  lemma {:induction false} AddRulesAppend(st: Progress, a: seq<Request>, b: seq<Request>, fs: FileSystem, accepts: Rule -> bool)
    ensures AddRules(AddRules(st, a, fs, accepts), b, fs, accepts) == AddRules(st, a + b, fs, accepts)
    decreases |a|
  {
    if a == [] {
      assert a + b == b;
    } else if st.failure.None? {
      assert (a + b)[0] == a[0];
      assert (a + b)[1..] == a[1..] + b;
      var req := a[0];
      if !(req.PathRequest? && !fs.canOpen(req.path)) {
        var rule := RuleFor(req, fs.isDir);
        var calls := st.calls + CallsFor(req, fs.isDir);
        if accepts(rule) {
          AddRulesAppend(Progress(calls, st.rules + [rule], None), a[1..], b, fs, accepts);
        }
      }
    }
  }

  /** The loops get through every request exactly when every path opens and
      every rule is accepted, and then they have made one open (for a path)
      and one `add_rule` per request, in order. */
  lemma AddRulesSucceeds(st: Progress, reqs: seq<Request>, fs: FileSystem, accepts: Rule -> bool)
    requires st.failure.None?
    ensures AddRules(st, reqs, fs, accepts).failure.None?
        <==> AllOpenable(reqs, fs.canOpen) && AllAccepted(RulesFor(reqs, fs.isDir), accepts)
    ensures AddRules(st, reqs, fs, accepts).failure.None? ==>
      AddRules(st, reqs, fs, accepts)
        == Progress(st.calls + AllCallsFor(reqs, fs.isDir), st.rules + RulesFor(reqs, fs.isDir), None)
  {
    if AllOpenable(reqs, fs.canOpen) && AllAccepted(RulesFor(reqs, fs.isDir), accepts) {
      AddRulesThrough(st, reqs, fs, accepts);
    } else {
      AddRulesFails(st, reqs, fs, accepts);
    }
  }

  lemma {:induction false} AddRulesThrough(st: Progress, reqs: seq<Request>, fs: FileSystem, accepts: Rule -> bool)
    requires st.failure.None?
    requires AllOpenable(reqs, fs.canOpen) && AllAccepted(RulesFor(reqs, fs.isDir), accepts)
    ensures AddRules(st, reqs, fs, accepts)
        == Progress(st.calls + AllCallsFor(reqs, fs.isDir), st.rules + RulesFor(reqs, fs.isDir), None)
    decreases |reqs|
  {
    if reqs != [] {
      var req := reqs[0];
      var rules := RulesFor(reqs, fs.isDir);
      var rule := RuleFor(req, fs.isDir);
      assert rules == [rule] + RulesFor(reqs[1..], fs.isDir);
      AllOpenableCons(reqs, fs.canOpen);
      AllAcceptedCons(rules, accepts);
      var calls := st.calls + CallsFor(req, fs.isDir);
      AddRulesThrough(Progress(calls, st.rules + [rule], None), reqs[1..], fs, accepts);
      assert st.rules + [rule] + RulesFor(reqs[1..], fs.isDir) == st.rules + rules;
      assert calls + AllCallsFor(reqs[1..], fs.isDir) == st.calls + AllCallsFor(reqs, fs.isDir);
    }
  }

  lemma {:induction false} AddRulesFails(st: Progress, reqs: seq<Request>, fs: FileSystem, accepts: Rule -> bool)
    requires st.failure.None?
    requires !(AllOpenable(reqs, fs.canOpen) && AllAccepted(RulesFor(reqs, fs.isDir), accepts))
    ensures AddRules(st, reqs, fs, accepts).failure.Some?
    decreases |reqs|
  {
    var req := reqs[0];
    var rules := RulesFor(reqs, fs.isDir);
    var rule := RuleFor(req, fs.isDir);
    assert rules == [rule] + RulesFor(reqs[1..], fs.isDir);
    AllOpenableCons(reqs, fs.canOpen);
    AllAcceptedCons(rules, accepts);
    if !(req.PathRequest? && !fs.canOpen(req.path)) && accepts(rule) {
      var calls := st.calls + CallsFor(req, fs.isDir);
      AddRulesFails(Progress(calls, st.rules + [rule], None), reqs[1..], fs, accepts);
    }
  }

  lemma AllOpenableCons(reqs: seq<Request>, canOpen: Path -> bool)
    requires reqs != []
    ensures AllOpenable(reqs, canOpen) <==>
      (!reqs[0].PathRequest? || canOpen(reqs[0].path)) && AllOpenable(reqs[1..], canOpen)
  {
    assert forall i :: 1 <= i < |reqs| ==> reqs[i] == reqs[1..][i - 1];
  }

  lemma AllAcceptedCons(rules: seq<Rule>, accepts: Rule -> bool)
    requires rules != []
    ensures AllAccepted(rules, accepts) <==> accepts(rules[0]) && AllAccepted(rules[1..], accepts)
  {
    assert forall i :: 1 <= i < |rules| ==> rules[i] == rules[1..][i - 1];
  }

  /** When no rule is rejected before it, the loops stop at the first path
      that cannot be opened, and report that path. */
  lemma {:induction false} AddRulesStopsAtUnopenable(st: Progress, reqs: seq<Request>, fs: FileSystem, accepts: Rule -> bool)
    requires st.failure.None?
    requires NoRejectionFirst(reqs, fs, accepts)
    ensures AddRules(st, reqs, fs, accepts).failure == Some(PathInaccessible(FirstUnopenable(reqs, fs.canOpen).value))
    decreases |reqs|
  {
    var i := FirstUnopenableAt(reqs, fs.canOpen).value;
    var req := reqs[0];
    if !(req.PathRequest? && !fs.canOpen(req.path)) {
      var rule := RuleFor(req, fs.isDir);
      var before := RulesFor(reqs[..i], fs.isDir);
      assert FirstUnopenableAt(reqs[1..], fs.canOpen) == Some(i - 1);
      assert reqs[..i][1..] == reqs[1..][..i - 1];
      assert before == [rule] + RulesFor(reqs[1..][..i - 1], fs.isDir);
      AllAcceptedCons(before, accepts);
      AddRulesStopsAtUnopenable(Progress(st.calls + CallsFor(req, fs.isDir), st.rules + [rule], None), reqs[1..], fs, accepts);
    }
  }

  /** The loops keep the calls made before them, and every call they add is
      accounted for by one of the requests; `restrict_self` is never among them. */
  lemma {:induction false} AddRulesCalls(st: Progress, reqs: seq<Request>, fs: FileSystem, accepts: Rule -> bool)
    ensures |st.calls| <= |AddRules(st, reqs, fs, accepts).calls|
    ensures AddRules(st, reqs, fs, accepts).calls[..|st.calls|] == st.calls
    ensures forall i :: |st.calls| <= i < |AddRules(st, reqs, fs, accepts).calls| ==>
      CallFrom(AddRules(st, reqs, fs, accepts).calls[i], reqs, fs.isDir)
    decreases |reqs|
  {
    var r := AddRules(st, reqs, fs, accepts);
    if st.failure.None? && reqs != [] {
      var req := reqs[0];
      if req.PathRequest? && !fs.canOpen(req.path) {
        assert CallFrom(OpenPath(req.path), reqs, fs.isDir);
      } else {
        var rule := RuleFor(req, fs.isDir);
        var calls := st.calls + CallsFor(req, fs.isDir);
        assert forall i :: |st.calls| <= i < |calls| ==> CallFrom(calls[i], reqs, fs.isDir) by {
          assert req.PathRequest? ==> CallFrom(OpenPath(req.path), reqs, fs.isDir);
          assert CallFrom(AddRule(rule), reqs, fs.isDir);
        }
        if accepts(rule) {
          var next := Progress(calls, st.rules + [rule], None);
          AddRulesCalls(next, reqs[1..], fs, accepts);
          forall i | |calls| <= i < |r.calls|
            ensures CallFrom(r.calls[i], reqs, fs.isDir)
          {
            CallFromTail(r.calls[i], reqs, fs.isDir);
          }
          assert r.calls[..|calls|] == calls;
          assert forall i :: |st.calls| <= i < |calls| ==> r.calls[i] == calls[i];
        }
      }
    }
  }

  lemma CallFromTail(call: Call, reqs: seq<Request>, isDir: Path -> bool)
    requires reqs != [] && CallFrom(call, reqs[1..], isDir)
    ensures CallFrom(call, reqs, isDir)
  {
    var j :| 0 <= j < |reqs[1..]| &&
      ((reqs[1..][j].PathRequest? && call == OpenPath(reqs[1..][j].path))
       || call == AddRule(RuleFor(reqs[1..][j], isDir)));
    assert reqs[1..][j] == reqs[j + 1];
  }

  /** Requests for ports never look at the filesystem. */
  lemma {:induction false} AddRulesPortsOnly(st: Progress, reqs: seq<Request>, fs1: FileSystem, fs2: FileSystem, accepts: Rule -> bool)
    requires forall i :: 0 <= i < |reqs| ==> reqs[i].PortRequest?
    ensures AddRules(st, reqs, fs1, accepts) == AddRules(st, reqs, fs2, accepts)
    decreases |reqs|
  {
    if st.failure.None? && reqs != [] {
      var rule := RuleFor(reqs[0], fs1.isDir);
      assert rule == RuleFor(reqs[0], fs2.isDir);
      assert CallsFor(reqs[0], fs1.isDir) == CallsFor(reqs[0], fs2.isDir);
      AddRulesPortsOnly(Progress(st.calls + CallsFor(reqs[0], fs1.isDir), st.rules + [rule], None), reqs[1..], fs1, fs2, accepts);
    }
  }

  /** The six loops of `apply` behave as one loop over `Requests(c)`. */
  lemma ApplyRulesIsOneLoop(c: Config, fs: FileSystem, landlock: Landlock)
    requires landlock.createOk
    ensures ApplyRules(c, fs, landlock)
      == Finish(c, AddRules(Progress([], [], None), Requests(c), fs, landlock.accepts), landlock.restrict)
  {
    var acc := landlock.accepts;
    var st0 := Progress([], [], None);
    var rx := PathRequests(c.readExec, ReadExecute);
    var rwx := PathRequests(c.readWriteExec, ReadWriteExecute);
    var ro := PathRequests(c.readOnly, ReadOnly);
    var rw := PathRequests(c.readWrite, ReadWrite);
    var bind := PortRequests(c.bindTcp, BindTcp);
    var conn := PortRequests(c.connectTcp, ConnectTcp);
    var st1 := AddRules(st0, PathRequestsOf(c), fs, acc);
    if !c.unrestrictedFs {
      AddRulesAppend(st0, rx, rwx, fs, acc);
      AddRulesAppend(st0, rx + rwx, ro, fs, acc);
      AddRulesAppend(st0, rx + rwx + ro, rw, fs, acc);
    }
    if !c.unrestrictedNet {
      AddRulesAppend(st1, bind, conn, fs, acc);
    } else {
      assert PortRequestsOf(c) == [];
    }
    AddRulesAppend(st0, PathRequestsOf(c), PortRequestsOf(c), fs, acc);
  }

  /** The early return for an empty configuration (lines 52-87) does exactly
      what the general path would have done. */
  lemma DefaultBranchAgrees(c: Config, fs: FileSystem, landlock: Landlock)
    requires DeclaresNothing(c)
    ensures ApplyDefault(c, landlock) == ApplyRules(c, fs, landlock)
  {
    if landlock.createOk {
      ApplyRulesIsOneLoop(c, fs, landlock);
      assert Requests(c) == [];
    }
  }

  // ---------------------------------------------------------------------
  // What `apply` does, in terms of the ruleset it calls for

  /** Which kinds of request a configuration produces. */
  lemma RequestsShape(c: Config)
    ensures forall i :: 0 <= i < |Requests(c)| && Requests(c)[i].PathRequest? ==> !c.unrestrictedFs
    ensures forall i :: 0 <= i < |Requests(c)| && Requests(c)[i].PortRequest? ==> !c.unrestrictedNet
    ensures c.unrestrictedFs ==> forall i :: 0 <= i < |Requests(c)| ==> Requests(c)[i].PortRequest?
    ensures c.unrestrictedNet ==> forall i :: 0 <= i < |Requests(c)| ==> Requests(c)[i].PathRequest?
  {
    var a := PathRequestsOf(c);
    var b := PortRequestsOf(c);
    assert forall i :: 0 <= i < |a| ==> a[i].PathRequest? by {
      if !c.unrestrictedFs {
        var rx := PathRequests(c.readExec, ReadExecute);
        var rwx := PathRequests(c.readWriteExec, ReadWriteExecute);
        var ro := PathRequests(c.readOnly, ReadOnly);
        var rw := PathRequests(c.readWrite, ReadWrite);
        var x: seq<Request> := rx + rwx;
        var y: seq<Request> := x + ro;
        var z: seq<Request> := y + rw;
        assert forall i :: 0 <= i < |x| ==> x[i].PathRequest?;
        assert forall i :: 0 <= i < |y| ==> y[i].PathRequest?;
        assert forall i :: 0 <= i < |z| ==> z[i].PathRequest?;
      }
    }
    assert forall i :: 0 <= i < |b| ==> b[i].PortRequest? by {
      if !c.unrestrictedNet {
        var bind := PortRequests(c.bindTcp, BindTcp);
        var conn := PortRequests(c.connectTcp, ConnectTcp);
        var x: seq<Request> := bind + conn;
        assert forall i :: 0 <= i < |x| ==> x[i].PortRequest?;
      }
    }
    assert forall i :: 0 <= i < |a + b| ==> (a + b)[i] == if i < |a| then a[i] else b[i - |a|];
  }

  /** No call in `calls` is `restrict_self`, when each is accounted for by a request. */
  lemma CallsFromRequestsAreNotRestrict(calls: seq<Call>, reqs: seq<Request>, isDir: Path -> bool)
    requires forall i :: 0 <= i < |calls| ==> CallFrom(calls[i], reqs, isDir)
    ensures RestrictSelf !in calls
  {
    forall i | 0 <= i < |calls|
      ensures calls[i] != RestrictSelf
    {
      var j :| 0 <= j < |reqs| &&
        ((reqs[j].PathRequest? && calls[i] == OpenPath(reqs[j].path)) || calls[i] == AddRule(RuleFor(reqs[j], isDir)));
    }
  }

  /** `apply` as one loop over `Requests(c)`, whichever branch it takes. */
  lemma ApplyIsOneLoop(c: Config, fs: FileSystem, landlock: Landlock)
    ensures Apply(c, fs, landlock) ==
      if !landlock.createOk then Applied([], Err(CreateFailed))
      else Finish(c, AddRules(Progress([], [], None), Requests(c), fs, landlock.accepts), landlock.restrict)
  {
    if DeclaresNothing(c) {
      DefaultBranchAgrees(c, fs, landlock);
    }
    if landlock.createOk {
      ApplyRulesIsOneLoop(c, fs, landlock);
    }
  }

  /** What the loops over all requests leave behind, in terms of `Build`. */
  lemma LoopMatchesBuild(c: Config, fs: FileSystem, accepts: Rule -> bool)
    ensures var st := AddRules(Progress([], [], None), Requests(c), fs, accepts);
      st.failure.None? <==> Build(c, fs).Ok? && AllAccepted(Build(c, fs).value.rules, accepts)
    ensures var st := AddRules(Progress([], [], None), Requests(c), fs, accepts);
      st.failure.None? ==> Build(c, fs) == Ok(Ruleset(HandledFs(c), HandledNet(c), st.rules))
    ensures var st := AddRules(Progress([], [], None), Requests(c), fs, accepts);
      RestrictSelf !in st.calls
    ensures var st := AddRules(Progress([], [], None), Requests(c), fs, accepts);
      NoRejectionFirst(Requests(c), fs, accepts) ==>
        Build(c, fs).Err? && st.failure == Some(PathInaccessible(Build(c, fs).error))
  {
    var reqs := Requests(c);
    var st0 := Progress([], [], None);
    var st := AddRules(st0, reqs, fs, accepts);
    AddRulesSucceeds(st0, reqs, fs, accepts);
    assert [] + RulesFor(reqs, fs.isDir) == RulesFor(reqs, fs.isDir);
    AddRulesCalls(st0, reqs, fs, accepts);
    assert st.calls[..0] == [];
    CallsFromRequestsAreNotRestrict(st.calls, reqs, fs.isDir);
    if NoRejectionFirst(reqs, fs, accepts) {
      AddRulesStopsAtUnopenable(st0, reqs, fs, accepts);
    }
  }

  /** The main refinement theorem. `apply` succeeds exactly when the ruleset
      can be created, every declared path can be opened, the kernel accepts
      every rule and `restrict_self` reports a status, whatever that status is;
      it then enforces precisely the ruleset `Build` describes. */
  lemma ApplyMatchesBuild(c: Config, fs: FileSystem, landlock: Landlock)
    ensures var a := Apply(c, fs, landlock);
      a.outcome.Ok? <==>
        landlock.createOk && Build(c, fs).Ok?
        && AllAccepted(Build(c, fs).value.rules, landlock.accepts) && landlock.restrict.Some?
    ensures var a := Apply(c, fs, landlock);
      a.outcome.Ok? ==>
        Build(c, fs) == Ok(a.outcome.value.ruleset) && a.outcome.value.status == landlock.restrict.value
  {
    ApplyIsOneLoop(c, fs, landlock);
    LoopMatchesBuild(c, fs, landlock.accepts);
  }

  /** `restrict_self` is called exactly when every step before it succeeded,
      and it is then the last call. */
  lemma RestrictSelfLast(c: Config, fs: FileSystem, landlock: Landlock)
    ensures var a := Apply(c, fs, landlock);
      RestrictSelf in a.calls <==>
        landlock.createOk && Build(c, fs).Ok? && AllAccepted(Build(c, fs).value.rules, landlock.accepts)
    ensures var a := Apply(c, fs, landlock);
      RestrictSelf in a.calls ==> a.calls[|a.calls| - 1] == RestrictSelf
  {
    ApplyIsOneLoop(c, fs, landlock);
    LoopMatchesBuild(c, fs, landlock.accepts);
  }

  /** A declared path that cannot be opened always makes `apply` fail before
      `restrict_self`; when no rule is rejected first, the error names the
      first such path in the order the loops visit them. */
  lemma UnopenablePathFails(c: Config, fs: FileSystem, landlock: Landlock)
    requires Build(c, fs).Err?
    ensures Apply(c, fs, landlock).outcome.Err?
    ensures RestrictSelf !in Apply(c, fs, landlock).calls
    ensures landlock.createOk && NoRejectionFirst(Requests(c), fs, landlock.accepts) ==>
      Apply(c, fs, landlock).outcome == Err(PathInaccessible(Build(c, fs).error))
  {
    ApplyIsOneLoop(c, fs, landlock);
    LoopMatchesBuild(c, fs, landlock.accepts);
  }

  /** A read-only path that cannot be opened is reported whatever the kernel
      would have said about the port rules after it: the loops never reach
      them. */
  lemma UnopenableBeforePort(p: Path, bind: seq<Port>, connect: seq<Port>, fs: FileSystem, landlock: Landlock)
    requires landlock.createOk && !fs.canOpen(p)
    ensures Apply(Config([p], [], [], [], bind, connect, false, false, false), fs, landlock).outcome
      == Err(PathInaccessible(p))
  {
    var c := Config([p], [], [], [], bind, connect, false, false, false);
    var reqs := Requests(c);
    assert PathRequests([p], ReadOnly) == [PathRequest(p, ReadOnly)];
    assert PathRequestsOf(c) == [PathRequest(p, ReadOnly)];
    assert reqs[0] == PathRequest(p, ReadOnly);
    assert FirstUnopenableAt(reqs, fs.canOpen) == Some(0);
    assert reqs[..0] == [];
    UnopenablePathFails(c, fs, landlock);
  }

  /** The rules `apply` adds, by path list: each is one rule per entry, in the
      order of the list, granting the level's rights. */
  function PathRules(paths: seq<Path>, level: Level, isDir: Path -> bool): (r: seq<Rule>)
    ensures |r| == |paths|
    ensures forall i :: 0 <= i < |r| ==> r[i] == PathBeneath(paths[i], Grant(level, isDir(paths[i])))
  {
    if paths == [] then [] else [PathBeneath(paths[0], Grant(level, isDir(paths[0])))] + PathRules(paths[1..], level, isDir)
  }

  function PortRules(ports: seq<Port>, net: AccessNet): (r: seq<Rule>)
    ensures |r| == |ports|
    ensures forall i :: 0 <= i < |r| ==> r[i] == NetPort(ports[i], net)
  {
    if ports == [] then [] else [NetPort(ports[0], net)] + PortRules(ports[1..], net)
  }

  function PathRulesOf(c: Config, isDir: Path -> bool): seq<Rule> {
    if c.unrestrictedFs then []
    else
      PathRules(c.readExec, ReadExecute, isDir) + PathRules(c.readWriteExec, ReadWriteExecute, isDir)
      + PathRules(c.readOnly, ReadOnly, isDir) + PathRules(c.readWrite, ReadWrite, isDir)
  }

  function PortRulesOf(c: Config): seq<Rule> {
    if c.unrestrictedNet then []
    else PortRules(c.bindTcp, BindTcp) + PortRules(c.connectTcp, ConnectTcp)
  }

  lemma {:induction false} RulesForAppend(a: seq<Request>, b: seq<Request>, isDir: Path -> bool)
    ensures RulesFor(a + b, isDir) == RulesFor(a, isDir) + RulesFor(b, isDir)
  {
    var l, r := RulesFor(a + b, isDir), RulesFor(a, isDir) + RulesFor(b, isDir);
    assert |l| == |r|;
    forall i | 0 <= i < |l|
      ensures l[i] == r[i]
    {
      if i < |a| {
        assert (a + b)[i] == a[i];
      } else {
        assert (a + b)[i] == b[i - |a|];
      }
    }
  }

  /** Rule order on success: read-execute paths, read-write-execute paths,
      read-only paths, read-write paths, each in the order given, then one
      bind rule per bind port and one connect rule per connect port; a
      category left unrestricted contributes no rules at all. */
  lemma RuleOrder(c: Config, fs: FileSystem, landlock: Landlock)
    requires Apply(c, fs, landlock).outcome.Ok?
    ensures Apply(c, fs, landlock).outcome.value.ruleset.rules == PathRulesOf(c, fs.isDir) + PortRulesOf(c)
  {
    ApplyMatchesBuild(c, fs, landlock);
    var isDir := fs.isDir;
    forall paths, level | true
      ensures RulesFor(PathRequests(paths, level), isDir) == PathRules(paths, level, isDir)
    {
      assert |RulesFor(PathRequests(paths, level), isDir)| == |PathRules(paths, level, isDir)|;
    }
    forall ports, net | true
      ensures RulesFor(PortRequests(ports, net), isDir) == PortRules(ports, net)
    {
      assert |RulesFor(PortRequests(ports, net), isDir)| == |PortRules(ports, net)|;
    }
    RulesForAppend(PathRequestsOf(c), PortRequestsOf(c), isDir);
    if !c.unrestrictedFs {
      var rx := PathRequests(c.readExec, ReadExecute);
      var rwx := PathRequests(c.readWriteExec, ReadWriteExecute);
      var ro := PathRequests(c.readOnly, ReadOnly);
      var rw := PathRequests(c.readWrite, ReadWrite);
      RulesForAppend(rx, rwx, isDir);
      RulesForAppend(rx + rwx, ro, isDir);
      RulesForAppend(rx + rwx + ro, rw, isDir);
    }
    if !c.unrestrictedNet {
      RulesForAppend(PortRequests(c.bindTcp, BindTcp), PortRequests(c.connectTcp, ConnectTcp), isDir);
    }
  }

  /** With the filesystem left unrestricted no path is opened and no path
      rule is added, so the filesystem cannot make `apply` fail; in fact its
      result does not depend on the filesystem at all. */
  lemma UnrestrictedFilesystem(c: Config, fs: FileSystem, other: FileSystem, landlock: Landlock)
    requires c.unrestrictedFs
    ensures var a := Apply(c, fs, landlock);
      forall i :: 0 <= i < |a.calls| ==> !a.calls[i].OpenPath? && !(a.calls[i].AddRule? && a.calls[i].rule.PathBeneath?)
    ensures !Apply(c, fs, landlock).outcome.Err? || !Apply(c, fs, landlock).outcome.error.PathInaccessible?
    ensures Apply(c, fs, landlock).outcome.Ok? ==> Apply(c, fs, landlock).outcome.value.ruleset.handledFs == {}
    ensures Apply(c, fs, landlock) == Apply(c, other, landlock)
  {
    if landlock.createOk {
      ApplyRulesIsOneLoop(c, fs, landlock);
      ApplyRulesIsOneLoop(c, other, landlock);
      var reqs := Requests(c);
      RequestsShape(c);
      var st0 := Progress([], [], None);
      AddRulesPortsOnly(st0, reqs, fs, other, landlock.accepts);
      AddRulesCalls(st0, reqs, fs, landlock.accepts);
      AddRulesFailure(st0, reqs, fs, landlock.accepts);
      var st := AddRules(st0, reqs, fs, landlock.accepts);
      forall i | 0 <= i < |st.calls|
        ensures !st.calls[i].OpenPath? && !(st.calls[i].AddRule? && st.calls[i].rule.PathBeneath?)
      {
        assert st.calls[..0] == [];
        var j :| 0 <= j < |reqs| &&
          ((reqs[j].PathRequest? && st.calls[i] == OpenPath(reqs[j].path)) || st.calls[i] == AddRule(RuleFor(reqs[j], fs.isDir)));
      }
    }
  }

  /** A failure of the loops names a declared path that cannot be opened, or
      a rule built from one of the requests. */
  lemma {:induction false} AddRulesFailure(st: Progress, reqs: seq<Request>, fs: FileSystem, accepts: Rule -> bool)
    requires st.failure.None?
    ensures var f := AddRules(st, reqs, fs, accepts).failure;
      f.Some? ==>
        exists j :: 0 <= j < |reqs| &&
          ((reqs[j].PathRequest? && f.value == PathInaccessible(reqs[j].path) && !fs.canOpen(reqs[j].path))
           || (f.value == RuleRejected(RuleFor(reqs[j], fs.isDir)) && !accepts(RuleFor(reqs[j], fs.isDir))))
    decreases |reqs|
  {
    if reqs != [] {
      var req := reqs[0];
      if !(req.PathRequest? && !fs.canOpen(req.path)) {
        var rule := RuleFor(req, fs.isDir);
        if accepts(rule) {
          var next := Progress(st.calls + CallsFor(req, fs.isDir), st.rules + [rule], None);
          AddRulesFailure(next, reqs[1..], fs, accepts);
          var f := AddRules(st, reqs, fs, accepts).failure;
          if f.Some? {
            var j :| 0 <= j < |reqs[1..]| &&
              ((reqs[1..][j].PathRequest? && f.value == PathInaccessible(reqs[1..][j].path) && !fs.canOpen(reqs[1..][j].path))
               || (f.value == RuleRejected(RuleFor(reqs[1..][j], fs.isDir)) && !accepts(RuleFor(reqs[1..][j], fs.isDir))));
            assert reqs[1..][j] == reqs[j + 1];
          }
        }
      }
    }
  }

  /** With the network left unrestricted no port rule is added and no TCP
      right is handled. */
  lemma UnrestrictedNetwork(c: Config, fs: FileSystem, landlock: Landlock)
    requires c.unrestrictedNet
    ensures var a := Apply(c, fs, landlock);
      forall i :: 0 <= i < |a.calls| ==> !(a.calls[i].AddRule? && a.calls[i].rule.NetPort?)
    ensures Apply(c, fs, landlock).outcome.Ok? ==>
      var rs := Apply(c, fs, landlock).outcome.value.ruleset;
      rs.handledNet == {} && forall i :: 0 <= i < |rs.rules| ==> rs.rules[i].PathBeneath?
  {
    ApplyMatchesBuild(c, fs, landlock);
    if landlock.createOk {
      ApplyRulesIsOneLoop(c, fs, landlock);
      var reqs := Requests(c);
      RequestsShape(c);
      var st0 := Progress([], [], None);
      AddRulesCalls(st0, reqs, fs, landlock.accepts);
      var st := AddRules(st0, reqs, fs, landlock.accepts);
      forall i | 0 <= i < |st.calls|
        ensures !(st.calls[i].AddRule? && st.calls[i].rule.NetPort?)
      {
        assert st.calls[..0] == [];
        var j :| 0 <= j < |reqs| &&
          ((reqs[j].PathRequest? && st.calls[i] == OpenPath(reqs[j].path)) || st.calls[i] == AddRule(RuleFor(reqs[j], fs.isDir)));
      }
    }
  }

  /** Every rule of an enforced ruleset allows only rights the ruleset
      handles, so no rule re-opens a category left unrestricted, and no path
      rule grants Refer, Truncate or IoctlDev. */
  lemma RulesWithinHandled(c: Config, fs: FileSystem, landlock: Landlock)
    requires Apply(c, fs, landlock).outcome.Ok?
    ensures var rs := Apply(c, fs, landlock).outcome.value.ruleset;
      forall i :: 0 <= i < |rs.rules| && rs.rules[i].PathBeneath? ==>
        rs.handledFs != {} && rs.rules[i].allowed <= rs.handledFs
        && Refer !in rs.rules[i].allowed && Truncate !in rs.rules[i].allowed && IoctlDev !in rs.rules[i].allowed
    ensures var rs := Apply(c, fs, landlock).outcome.value.ruleset;
      forall i :: 0 <= i < |rs.rules| && rs.rules[i].NetPort? ==> rs.rules[i].allowedNet in rs.handledNet
  {
    ApplyMatchesBuild(c, fs, landlock);
    BuildWithinHandled(c, fs);
  }

  /** No rule of `rs` allows a right `rs` does not handle, and no path rule
      allows Refer, Truncate or IoctlDev. */
  predicate WithinHandled(rs: Ruleset) {
    && (forall i :: 0 <= i < |rs.rules| && rs.rules[i].PathBeneath? ==>
          rs.handledFs != {} && rs.rules[i].allowed <= rs.handledFs
          && Refer !in rs.rules[i].allowed && Truncate !in rs.rules[i].allowed && IoctlDev !in rs.rules[i].allowed)
    && (forall i :: 0 <= i < |rs.rules| && rs.rules[i].NetPort? ==> rs.rules[i].allowedNet in rs.handledNet)
  }

  lemma BuildWithinHandled(c: Config, fs: FileSystem)
    requires Build(c, fs).Ok?
    ensures WithinHandled(Build(c, fs).value)
  {
    var reqs := Requests(c);
    var rules := RulesFor(reqs, fs.isDir);
    RequestsShape(c);
    assert Build(c, fs).value == Ruleset(HandledFs(c), HandledNet(c), rules);
    forall i | 0 <= i < |rules|
      ensures rules[i].PathBeneath? ==> reqs[i].PathRequest? && HandledFs(c) != {} && rules[i].allowed <= HandledFs(c)
      ensures rules[i].NetPort? ==> reqs[i].PortRequest? && rules[i].allowedNet in HandledNet(c)
    {
      assert rules[i] == RuleFor(reqs[i], fs.isDir);
    }
  }

  /** `best_effort` is carried in the configuration but never read. */
  lemma BestEffortIgnored(c: Config, fs: FileSystem, landlock: Landlock)
    ensures Apply(c.(bestEffort := !c.bestEffort), fs, landlock) == Apply(c, fs, landlock)
  {
    var d := c.(bestEffort := !c.bestEffort);
    assert Requests(d) == Requests(c);
    if DeclaresNothing(c) {
      DefaultBranchAgrees(c, fs, landlock);
      DefaultBranchAgrees(d, fs, landlock);
    }
    if landlock.createOk {
      ApplyRulesIsOneLoop(c, fs, landlock);
      ApplyRulesIsOneLoop(d, fs, landlock);
    }
  }

  /** A fresh configuration handles every filesystem right and both TCP
      rights and allows none of them: the most restrictive sandbox. */
  lemma NewConfigDeniesEverything(fs: FileSystem, landlock: Landlock)
    requires Apply(NewConfig(), fs, landlock).outcome.Ok?
    ensures var rs := Apply(NewConfig(), fs, landlock).outcome.value.ruleset;
      rs.rules == [] && (forall a :: a in rs.handledFs) && rs.handledNet == {BindTcp, ConnectTcp}
    ensures Apply(NewConfig(), fs, landlock).calls == [RestrictSelf]
  {
  }

  /** Every entry of each list of `small` is also in the same list of `large`,
      and both leave the same categories unrestricted. */
  predicate Narrower(small: Config, large: Config) {
    && (forall p :: p in small.readOnly ==> p in large.readOnly)
    && (forall p :: p in small.readWrite ==> p in large.readWrite)
    && (forall p :: p in small.readExec ==> p in large.readExec)
    && (forall p :: p in small.readWriteExec ==> p in large.readWriteExec)
    && (forall p :: p in small.bindTcp ==> p in large.bindTcp)
    && (forall p :: p in small.connectTcp ==> p in large.connectTcp)
    && small.unrestrictedFs == large.unrestrictedFs && small.unrestrictedNet == large.unrestrictedNet
  }

  lemma PathRequestsMember(paths: seq<Path>, level: Level, q: Request)
    ensures q in PathRequests(paths, level) <==> q.PathRequest? && q.level == level && q.path in paths
  {
    if q.PathRequest? && q.level == level && q.path in paths {
      var i :| 0 <= i < |paths| && paths[i] == q.path;
      assert PathRequests(paths, level)[i] == q;
    }
  }

  lemma PortRequestsMember(ports: seq<Port>, net: AccessNet, q: Request)
    ensures q in PortRequests(ports, net) <==> q.PortRequest? && q.net == net && q.port in ports
  {
    if q.PortRequest? && q.net == net && q.port in ports {
      var i :| 0 <= i < |ports| && ports[i] == q.port;
      assert PortRequests(ports, net)[i] == q;
    }
  }

  /** A narrower configuration makes no request the wider one does not. */
  lemma RequestsMonotone(small: Config, large: Config)
    requires Narrower(small, large)
    ensures forall q :: q in Requests(small) ==> q in Requests(large)
  {
    forall q | q in Requests(small)
      ensures q in Requests(large)
    {
      PathRequestsMember(small.readExec, ReadExecute, q);
      PathRequestsMember(small.readWriteExec, ReadWriteExecute, q);
      PathRequestsMember(small.readOnly, ReadOnly, q);
      PathRequestsMember(small.readWrite, ReadWrite, q);
      PortRequestsMember(small.bindTcp, BindTcp, q);
      PortRequestsMember(small.connectTcp, ConnectTcp, q);
      PathRequestsMember(large.readExec, ReadExecute, q);
      PathRequestsMember(large.readWriteExec, ReadWriteExecute, q);
      PathRequestsMember(large.readOnly, ReadOnly, q);
      PathRequestsMember(large.readWrite, ReadWrite, q);
      PortRequestsMember(large.bindTcp, BindTcp, q);
      PortRequestsMember(large.connectTcp, ConnectTcp, q);
    }
  }

  /** Granting less never makes `apply` need more: dropping entries from the
      lists keeps a buildable configuration buildable, and its rules are among
      the rules of the larger one. */
  lemma BuildMonotone(small: Config, large: Config, fs: FileSystem)
    requires Narrower(small, large)
    requires Build(large, fs).Ok?
    ensures Build(small, fs).Ok?
    ensures Build(small, fs).value.handledFs == Build(large, fs).value.handledFs
    ensures Build(small, fs).value.handledNet == Build(large, fs).value.handledNet
    ensures forall r :: r in Build(small, fs).value.rules ==> r in Build(large, fs).value.rules
  {
    var a, b := Requests(small), Requests(large);
    RequestsMonotone(small, large);
    OpenableMonotone(a, b, fs.canOpen);
    RulesForMonotone(a, b, fs.isDir);
  }

  lemma OpenableMonotone(a: seq<Request>, b: seq<Request>, canOpen: Path -> bool)
    requires forall q :: q in a ==> q in b
    requires AllOpenable(b, canOpen)
    ensures AllOpenable(a, canOpen)
  {
    forall i | 0 <= i < |a| && a[i].PathRequest?
      ensures canOpen(a[i].path)
    {
      assert a[i] in b;
      var j :| 0 <= j < |b| && b[j] == a[i];
    }
  }

  lemma RulesForMonotone(a: seq<Request>, b: seq<Request>, isDir: Path -> bool)
    requires forall q :: q in a ==> q in b
    ensures forall r :: r in RulesFor(a, isDir) ==> r in RulesFor(b, isDir)
  {
    forall r | r in RulesFor(a, isDir)
      ensures r in RulesFor(b, isDir)
    {
      var i :| 0 <= i < |a| && RulesFor(a, isDir)[i] == r;
      assert a[i] in b;
      var j :| 0 <= j < |b| && b[j] == a[i];
      assert RulesFor(b, isDir)[j] == r;
    }
  }
}
