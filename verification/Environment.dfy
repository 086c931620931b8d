/** The environment of a started process (internal/system/system.go, internal/grpc/shellenv.go). */
module Environment {
  import opened Options

  const HOME: string := "HOME"

  /** The part before the first '=', or all of it. */
  function Key(entry: string): string {
    if entry == "" || entry[0] == '=' then "" else [entry[0]] + Key(entry[1..])
  }

  function Keys(env: seq<string>): set<string> {
    set e | e in env :: Key(e)
  }

  /** Entry i is the first with its key, and not HOME. */
  predicate IsFirst(all: seq<string>, i: nat)
    requires i < |all|
  {
    Key(all[i]) != HOME && forall j | 0 <= j < i :: Key(all[j]) != Key(all[i])
  }

  /** The first entries among positions lo to hi, in order; what comes before lo counts as seen. */
  function Firsts(all: seq<string>, lo: nat, hi: nat): seq<string>
    requires lo <= hi <= |all|
  {
    if lo == hi then []
    else Firsts(all, lo, hi - 1) + (if IsFirst(all, hi - 1) then [all[hi - 1]] else [])
  }

  function HomeEntry(homeDir: string): string { "HOME=" + homeDir }

  /** The environment: requested variables, HOME, then the daemon's own variables. */
  function Env(envVars: seq<string>, homeDir: string, environ: seq<string>): seq<string> {
    var all := envVars + environ;
    Firsts(all, 0, |envVars|) + [HomeEntry(homeDir)] + Firsts(all, |envVars|, |all|)
  }

  method CreateEnvVars(envVars: seq<string>, homeDir: string, environ: seq<string>) returns (newEnv: seq<string>)
    ensures newEnv == Env(envVars, homeDir, environ)
  {
    ghost var all := envVars + environ;
    newEnv := [];
    var addedKeys: set<string> := {};
    NoneSeen(all);
    hide *;
    for k := 0 to |envVars|
      invariant newEnv == Firsts(all, 0, k)
      invariant addedKeys == Keys(all[..k]) - {HOME}
    {
      var e := envVars[k];
      var key := Key(e);
      SeenKeys(all, 0, k);
      if key == HOME {
        continue;
      }
      if key !in addedKeys {
        newEnv := newEnv + [e];
        addedKeys := addedKeys + {key};
      }
    }
    newEnv := newEnv + [HomeEntry(homeDir)];
    addedKeys := addedKeys + {HOME};
    ghost var before := newEnv;
    assert newEnv == before + [];
    NoneBetween(all, |envVars|);
    for k := 0 to |environ|
      invariant newEnv == before + Firsts(all, |envVars|, |envVars| + k)
      invariant addedKeys == Keys(all[..|envVars| + k]) + {HOME}
    {
      var e := environ[k];
      var key := Key(e);
      SeenKeys(all, |envVars|, |envVars| + k);
      if key == HOME {
        continue;
      }
      if key !in addedKeys {
        newEnv := newEnv + [e];
        addedKeys := addedKeys + {key};
      }
    }
    EnvIs(envVars, homeDir, environ);
  }

  lemma NoneSeen(all: seq<string>)
    ensures Firsts(all, 0, 0) == [] && Keys(all[..0]) == {}
  {
  }

  lemma NoneBetween(all: seq<string>, lo: nat)
    requires lo <= |all|
    ensures Firsts(all, lo, lo) == []
  {
  }

  lemma EnvIs(envVars: seq<string>, homeDir: string, environ: seq<string>)
    ensures var all := envVars + environ;
            Env(envVars, homeDir, environ)
            == Firsts(all, 0, |envVars|) + [HomeEntry(homeDir)] + Firsts(all, |envVars|, |envVars| + |environ|)
  {
  }

  /** A key has been seen exactly when its next entry is not the first. */
  lemma SeenKeys(all: seq<string>, lo: nat, k: nat)
    requires lo <= k < |all|
    ensures Keys(all[..k + 1]) == Keys(all[..k]) + {Key(all[k])}
    ensures Firsts(all, lo, k + 1) == Firsts(all, lo, k) +
            (if Key(all[k]) != HOME && Key(all[k]) !in Keys(all[..k]) then [all[k]] else [])
  {
    assert all[..k + 1] == all[..k] + [all[k]];
    if Key(all[k]) in Keys(all[..k]) {
      var e :| e in all[..k] && Key(e) == Key(all[k]);
      var j :| 0 <= j < k && all[j] == e;
    } else {
      assert forall j | 0 <= j < k :: all[j] in all[..k];
    }
  }

  // What a process sees.

  /** The value of the first entry with this key, as getenv finds it. */
  function Lookup(env: seq<string>, key: string): Option<string> {
    if env == [] then None
    else if Key(env[0]) == key then Some(env[0])
    else Lookup(env[1..], key)
  }

  lemma {:induction false} LookupConcat(a: seq<string>, b: seq<string>, key: string)
    ensures Lookup(a + b, key) == if Lookup(a, key).Some? then Lookup(a, key) else Lookup(b, key)
  {
    if a == [] {
      assert a + b == b;
    } else {
      assert (a + b)[1..] == a[1..] + b;
      LookupConcat(a[1..], b, key);
    }
  }

  lemma {:induction false} LookupAbsent(env: seq<string>, key: string)
    ensures Lookup(env, key).None? <==> forall e | e in env :: Key(e) != key
    ensures Lookup(env, key).Some? ==> Key(Lookup(env, key).value) == key
  {
    if env != [] {
      LookupAbsent(env[1..], key);
      assert env == [env[0]] + env[1..];
      assert env[0] in env;
    }
  }

  /** Among the first entries of lo to hi a key has the value it has first in all, if that is in range. */
  lemma {:induction false} LookupFirsts(all: seq<string>, lo: nat, hi: nat, key: string)
    requires lo <= hi <= |all| && key != HOME
    ensures Lookup(Firsts(all, lo, hi), key) ==
            if Lookup(all[..lo], key).Some? then None else Lookup(all[lo..hi], key)
  {
    if lo == hi {
      assert all[lo..hi] == [];
    } else {
      hide *;
      var k := hi - 1;
      LookupFirsts(all, lo, k, key);
      LookupNext(all, lo, k, key);
      FirstsNext(all, lo, k, key);
    }
  }

  lemma LookupNext(all: seq<string>, lo: nat, k: nat, key: string)
    requires lo <= k < |all|
    ensures Lookup(all[lo..k + 1], key) ==
            if Lookup(all[lo..k], key).Some? then Lookup(all[lo..k], key)
            else if Key(all[k]) == key then Some(all[k]) else None
  {
    hide *;
    SplitAt(all, lo, k);
    LookupConcat(all[lo..k], [all[k]], key);
    LookupOne(all[k], key);
  }

  lemma FirstsNext(all: seq<string>, lo: nat, k: nat, key: string)
    requires lo <= k < |all| && key != HOME
    ensures Lookup(Firsts(all, lo, k + 1), key) ==
            if Lookup(Firsts(all, lo, k), key).Some? then Lookup(Firsts(all, lo, k), key)
            else if Key(all[k]) == key && Lookup(all[..lo], key).None? && Lookup(all[lo..k], key).None? then Some(all[k])
            else None
  {
    hide *;
    var e := all[k];
    var kept := if Key(e) != HOME && Key(e) !in Keys(all[..k]) then [e] else [];
    SeenKeys(all, lo, k);
    LookupConcat(Firsts(all, lo, k), kept, key);
    LookupOne(e, key);
    if Key(e) == key {
      SplitAt(all, lo, k);
      LookupSeen(all[..k], key);
      LookupConcat(all[..lo], all[lo..k], key);
    }
  }

  lemma SplitAt(all: seq<string>, lo: nat, k: nat)
    requires lo <= k < |all|
    ensures all[..lo] + all[lo..k] == all[..k] && all[lo..k + 1] == all[lo..k] + [all[k]]
  {
  }

  lemma LookupOne(e: string, key: string)
    ensures Lookup([e], key) == (if Key(e) == key then Some(e) else None) && Lookup([], key) == None
  {
  }

  lemma LookupSeen(env: seq<string>, key: string)
    ensures Lookup(env, key).Some? <==> key in Keys(env)
  {
    LookupAbsent(env, key);
  }

  lemma {:induction false} FirstsAreDistinct(all: seq<string>, lo: nat, hi: nat)
    requires lo <= hi <= |all|
    ensures forall i, j | 0 <= i < j < |Firsts(all, lo, hi)| :: Key(Firsts(all, lo, hi)[i]) != Key(Firsts(all, lo, hi)[j])
    ensures forall e | e in Firsts(all, lo, hi) :: Key(e) != HOME && exists k :: lo <= k < hi && all[k] == e && IsFirst(all, k)
  {
    if lo < hi {
      FirstsAreDistinct(all, lo, hi - 1);
    }
  }

  lemma HomeKey(homeDir: string)
    ensures Key(HomeEntry(homeDir)) == HOME
  {
    var h := HomeEntry(homeDir);
    assert h[1..][1..][1..][1..][0] == '=';
    assert Key(h) == ['H'] + Key(h[1..]);
    assert Key(h[1..]) == ['O'] + Key(h[1..][1..]);
    assert Key(h[1..][1..]) == ['M'] + Key(h[1..][1..][1..]);
    assert Key(h[1..][1..][1..]) == ['E'] + Key(h[1..][1..][1..][1..]);
  }

  /** No key comes twice. */
  lemma KeysAreDistinct(envVars: seq<string>, homeDir: string, environ: seq<string>)
    ensures var env := Env(envVars, homeDir, environ);
            forall i, j | 0 <= i < j < |env| :: Key(env[i]) != Key(env[j])
  {
    var all, n := envVars + environ, |envVars|;
    var a, b := Firsts(all, 0, n), Firsts(all, n, |all|);
    FirstsAreDistinct(all, 0, n);
    FirstsAreDistinct(all, n, |all|);
    HomeKey(homeDir);
    forall x, y | x in a && y in b
      ensures Key(x) != Key(y)
    {
      var i :| 0 <= i < n && all[i] == x && IsFirst(all, i);
      var j :| n <= j < |all| && all[j] == y && IsFirst(all, j);
    }
  }

  /** HOME is the given directory; every other variable is the first requested one, else the daemon's first. */
  lemma ValuesAreFirst(envVars: seq<string>, homeDir: string, environ: seq<string>, key: string)
    ensures Lookup(Env(envVars, homeDir, environ), key) ==
            if key == "HOME" then Some("HOME=" + homeDir)
            else if Lookup(envVars, key).Some? then Lookup(envVars, key) else Lookup(environ, key)
  {
    var all, n := envVars + environ, |envVars|;
    var a, b := Firsts(all, 0, n), Firsts(all, n, |all|);
    HomeKey(homeDir);
    LookupConcat(a + [HomeEntry(homeDir)], b, key);
    LookupConcat(a, [HomeEntry(homeDir)], key);
    if key == HOME {
      FirstsAreDistinct(all, 0, n);
      LookupAbsent(a, key);
    } else {
      LookupFirsts(all, 0, n, key);
      LookupFirsts(all, n, |all|, key);
      assert all[..0] == [] && all[0..n] == envVars && all[..n] == envVars && all[n..|all|] == environ;
    }
  }

  /** The key of NAME=VALUE is NAME, however many '=' the value has; without a '=' it is the whole entry. */
  lemma {:induction false} KeyMeans(name: string, value: string)
    requires '=' !in name
    ensures Key(name) == name && Key(name + "=" + value) == name
  {
    if name != "" {
      KeyMeans(name[1..], value);
      assert (name + "=" + value)[1..] == name[1..] + "=" + value;
      assert name == [name[0]] + name[1..] && name[0] in name;
    }
  }

  /** Looking up finds the first entry with the key. */
  lemma {:induction false} LookupMeans(env: seq<string>, key: string, i: nat)
    requires i < |env| && Key(env[i]) == key && forall j | 0 <= j < i :: Key(env[j]) != key
    ensures Lookup(env, key) == Some(env[i])
    decreases i
  {
    if i > 0 {
      LookupMeans(env[1..], key, i - 1);
    }
  }

  /** Positions in order. */
  predicate Increasing(at: seq<nat>) {
    forall i, j | 0 <= i < j < |at| :: at[i] < at[j]
  }

  lemma {:induction false} FirstsInOrder(all: seq<string>, lo: nat, hi: nat) returns (at: seq<nat>)
    requires lo <= hi <= |all|
    ensures Increasing(at) && |at| == |Firsts(all, lo, hi)|
    ensures forall i | 0 <= i < |at| :: lo <= at[i] < hi && Firsts(all, lo, hi)[i] == all[at[i]]
  {
    if lo == hi {
      at := [];
    } else {
      at := FirstsInOrder(all, lo, hi - 1);
      if IsFirst(all, hi - 1) {
        at := at + [hi - 1];
      }
      hide IsFirst;
    }
  }

  /** The order is kept: requested variables as requested, then HOME, then the daemon's as it has them. */
  lemma OrderIsKept(envVars: seq<string>, homeDir: string, environ: seq<string>) returns (a: seq<nat>, b: seq<nat>)
    ensures var env := Env(envVars, homeDir, environ);
            && |env| == |a| + 1 + |b| && env[|a|] == "HOME=" + homeDir
            && Increasing(a) && (forall i | 0 <= i < |a| :: a[i] < |envVars| && env[i] == envVars[a[i]])
            && Increasing(b) && (forall i | 0 <= i < |b| :: b[i] < |environ| && env[|a| + 1 + i] == environ[b[i]])
  {
    var all, n := envVars + environ, |envVars|;
    a := FirstsInOrder(all, 0, n);
    var later := FirstsInOrder(all, n, |all|);
    b := Shifted(later, n);
  }

  lemma Shifted(at: seq<nat>, n: nat) returns (b: seq<nat>)
    requires Increasing(at) && forall i | 0 <= i < |at| :: at[i] >= n
    ensures Increasing(b) && |b| == |at| && forall i | 0 <= i < |at| :: b[i] == at[i] - n
  {
    b := seq(|at|, i requires 0 <= i < |at| => at[i] - n);
  }

  /** The environment of a shell: request variables, then the user's defaults, then the daemon's. */
  function UserEnv(reqEnv: seq<string>, username: string, homeDir: string, shell: string, environ: seq<string>): seq<string> {
    Env(reqEnv + ["SHELL=" + shell, "USER=" + username, "LOGNAME=" + username], homeDir, environ)
  }

  /** Precedence of one variable's sources. */
  lemma UserEnvPrecedence(reqEnv: seq<string>, username: string, homeDir: string, shell: string,
                          environ: seq<string>, key: string)
    ensures var defaults := ["SHELL=" + shell, "USER=" + username, "LOGNAME=" + username];
            Lookup(UserEnv(reqEnv, username, homeDir, shell, environ), key) ==
            if key == "HOME" then Some("HOME=" + homeDir)
            else if Lookup(reqEnv, key).Some? then Lookup(reqEnv, key)
            else if Lookup(defaults, key).Some? then Lookup(defaults, key)
            else Lookup(environ, key)
  {
    var defaults := ["SHELL=" + shell, "USER=" + username, "LOGNAME=" + username];
    ValuesAreFirst(reqEnv + defaults, homeDir, environ, key);
    LookupConcat(reqEnv, defaults, key);
  }
}
