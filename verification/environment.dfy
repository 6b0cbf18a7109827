/** `utils::process_environment_vars`: turning the launcher's `--env`
    flags into the `KEY=VALUE` strings handed to the new program.

    The process environment is a map from variable names to values; a name
    that `env::var` cannot read is simply not in the map. */
module Environment {

  type Env = map<string, string>

  /** A flag that already carries its value. */
  predicate HasValue(flag: string) {
    '=' in flag
  }

  /** A bare key that the environment does not define: such a flag is dropped. */
  predicate Absent(flag: string, env: Env) {
    !HasValue(flag) && flag !in env
  }

  /** The `KEY=VALUE` string for a flag that is kept. */
  function Resolve(flag: string, env: Env): (r: string)
    requires !Absent(flag, env)
    ensures HasValue(r)
  {
    if HasValue(flag) then flag
    else
      var r := flag + "=" + env[flag];
      assert r[|flag|] == '=';
      r
  }

  /** What one flag contributes: itself if it has a value, `KEY=VALUE` if its
      key is defined, nothing otherwise. */
  function Entry(flag: string, env: Env): (r: seq<string>)
    ensures |r| <= 1
    ensures r == [] <==> Absent(flag, env)
    ensures HasValue(flag) ==> r == [flag]
    ensures !HasValue(flag) && flag in env ==> r == [flag + "=" + env[flag]]
  {
    if !HasValue(flag) then
      if flag in env then [flag + "=" + env[flag]] else []
    else
      [flag]
  }

  /** `process_environment_vars`. */
  function ProcessEnvironmentVars(flags: seq<string>, env: Env): (r: seq<string>)
    ensures |r| <= |flags|
    ensures forall i :: 0 <= i < |r| ==> HasValue(r[i])
  {
    if flags == [] then []
    else
      var rest := ProcessEnvironmentVars(flags[1..], env);
      assert forall i :: 0 <= i < |rest| ==> HasValue(rest[i]);
      assert forall e :: e in Entry(flags[0], env) ==> HasValue(e) by {
        if !Absent(flags[0], env) {
          assert Entry(flags[0], env) == [Resolve(flags[0], env)];
        }
      }
      Entry(flags[0], env) + rest
  }

  /** The flags that survive, in their original order. */
  function Kept(flags: seq<string>, env: Env): (r: seq<string>)
    ensures forall i :: 0 <= i < |r| ==> !Absent(r[i], env)
    ensures forall f :: f in r <==> f in flags && !Absent(f, env)
  {
    if flags == [] then []
    else if Absent(flags[0], env) then Kept(flags[1..], env)
    else [flags[0]] + Kept(flags[1..], env)
  }

  /** How many flags are bare keys the environment does not define. */
  function CountAbsent(flags: seq<string>, env: Env): (n: nat)
    ensures n <= |flags|
  {
    if flags == [] then 0
    else (if Absent(flags[0], env) then 1 else 0) + CountAbsent(flags[1..], env)
  }

  /** The surviving flags are all flags but the bare keys that are not defined. */
  lemma {:induction false} KeptLength(flags: seq<string>, env: Env)
    ensures |Kept(flags, env)| == |flags| - CountAbsent(flags, env)
  {
    if flags != [] {
      KeptLength(flags[1..], env);
    }
  }

  /** `r` is `k` with every flag resolved, position by position. */
  predicate ResolvedFrom(r: seq<string>, k: seq<string>, env: Env) {
    |r| == |k| && forall i :: 0 <= i < |k| ==> !Absent(k[i], env) && r[i] == Resolve(k[i], env)
  }

  /** The result is the surviving flags, each resolved, in input order, and
      it is as long as the input less the dropped flags. */
  lemma ProcessIsResolveOfKept(flags: seq<string>, env: Env)
    ensures ResolvedFrom(ProcessEnvironmentVars(flags, env), Kept(flags, env), env)
    ensures |ProcessEnvironmentVars(flags, env)| == |flags| - CountAbsent(flags, env)
  {
    ResolveKept(flags, env);
    KeptLength(flags, env);
  }

  lemma {:induction false} ResolveKept(flags: seq<string>, env: Env)
    ensures ResolvedFrom(ProcessEnvironmentVars(flags, env), Kept(flags, env), env)
  {
    if flags != [] {
      ResolveKept(flags[1..], env);
      var r' := ProcessEnvironmentVars(flags[1..], env);
      var k' := Kept(flags[1..], env);
      if !Absent(flags[0], env) {
        assert ProcessEnvironmentVars(flags, env) == [Resolve(flags[0], env)] + r';
        assert Kept(flags, env) == [flags[0]] + k';
        ResolvedCons(flags[0], r', k', env);
      }
    }
  }

  lemma ResolvedCons(flag: string, r: seq<string>, k: seq<string>, env: Env)
    requires !Absent(flag, env) && ResolvedFrom(r, k, env)
    ensures ResolvedFrom([Resolve(flag, env)] + r, [flag] + k, env)
  {
    var r1, k1 := [Resolve(flag, env)] + r, [flag] + k;
    forall i | 1 <= i < |k1|
      ensures !Absent(k1[i], env) && r1[i] == Resolve(k1[i], env)
    {
      assert r1[i] == r[i - 1] && k1[i] == k[i - 1];
    }
  }

  /** Processing is done flag by flag: the flags of `a + b` give the
      results for `a` followed by those for `b`. */
  lemma {:induction false} ProcessAppend(a: seq<string>, b: seq<string>, env: Env)
    ensures ProcessEnvironmentVars(a + b, env) == ProcessEnvironmentVars(a, env) + ProcessEnvironmentVars(b, env)
  {
    if a == [] {
      assert a + b == b;
    } else {
      assert (a + b)[0] == a[0];
      assert (a + b)[1..] == a[1..] + b;
      ProcessAppend(a[1..], b, env);
    }
  }

  /** A flag is passed through verbatim when it has a value, becomes
      `KEY=VALUE` when its key is defined, and is dropped otherwise. */
  lemma SingleFlag(flag: string, env: Env)
    ensures HasValue(flag) ==> ProcessEnvironmentVars([flag], env) == [flag]
    ensures !HasValue(flag) && flag in env ==> ProcessEnvironmentVars([flag], env) == [flag + "=" + env[flag]]
    ensures Absent(flag, env) ==> ProcessEnvironmentVars([flag], env) == []
  {
    assert [flag][1..] == [];
  }

  /** Nothing is deduplicated: naming a defined key twice gives two entries. */
  lemma RepeatedKeyKept(key: string, env: Env)
    requires !HasValue(key) && key in env
    ensures ProcessEnvironmentVars([key, key], env) == [key + "=" + env[key], key + "=" + env[key]]
  {
    assert [key, key] == [key] + [key];
    ProcessAppend([key], [key], env);
    SingleFlag(key, env);
  }

  // The four cases the module's own tests check.

  /** Flags with values pass through unchanged. */
  lemma ExampleWithValues()
    ensures ProcessEnvironmentVars(["KEY1=value1", "KEY2=value2"], map[]) == ["KEY1=value1", "KEY2=value2"]
  {
    assert "KEY1=value1"[4] == '=';
    assert "KEY2=value2"[4] == '=';
    SingleFlag("KEY1=value1", map[]);
    SingleFlag("KEY2=value2", map[]);
    ProcessAppend(["KEY1=value1"], ["KEY2=value2"], map[]);
    assert ["KEY1=value1", "KEY2=value2"] == ["KEY1=value1"] + ["KEY2=value2"];
  }

  /** A bare key takes its value from the environment. */
  lemma ExampleFromEnvironment()
    ensures ProcessEnvironmentVars(["TEST_ENV_VAR"], map["TEST_ENV_VAR" := "test_value"])
      == ["TEST_ENV_VAR=test_value"]
  {
    var env := map["TEST_ENV_VAR" := "test_value"];
    assert '=' !in "TEST_ENV_VAR";
    assert "TEST_ENV_VAR" + "=" + env["TEST_ENV_VAR"] == "TEST_ENV_VAR=test_value";
    SingleFlag("TEST_ENV_VAR", env);
  }

  /** A bare key missing from the environment is dropped. */
  lemma ExampleMissing()
    ensures ProcessEnvironmentVars(["NONEXISTENT_TEST_VAR"], map[]) == []
  {
    assert '=' !in "NONEXISTENT_TEST_VAR";
    SingleFlag("NONEXISTENT_TEST_VAR", map[]);
  }

  /** The three kinds together, in order. */
  lemma ExampleMixed()
    ensures ProcessEnvironmentVars(["KEY1=value1", "TEST_ENV_VAR", "NONEXISTENT_TEST_VAR"],
                                   map["TEST_ENV_VAR" := "test_value"])
      == ["KEY1=value1", "TEST_ENV_VAR=test_value"]
  {
    var env := map["TEST_ENV_VAR" := "test_value"];
    assert "KEY1=value1"[4] == '=';
    assert '=' !in "NONEXISTENT_TEST_VAR";
    assert "NONEXISTENT_TEST_VAR" !in env;
    SingleFlag("KEY1=value1", env);
    ExampleFromEnvironment();
    SingleFlag("NONEXISTENT_TEST_VAR", env);
    ProcessAppend(["KEY1=value1"], ["TEST_ENV_VAR", "NONEXISTENT_TEST_VAR"], env);
    ProcessAppend(["TEST_ENV_VAR"], ["NONEXISTENT_TEST_VAR"], env);
    assert ["KEY1=value1", "TEST_ENV_VAR", "NONEXISTENT_TEST_VAR"]
      == ["KEY1=value1"] + (["TEST_ENV_VAR"] + ["NONEXISTENT_TEST_VAR"]);
    assert ["TEST_ENV_VAR", "NONEXISTENT_TEST_VAR"] == ["TEST_ENV_VAR"] + ["NONEXISTENT_TEST_VAR"];
  }
}
