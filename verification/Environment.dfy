// common/cmd_nvedit.c: the environment, a flat buffer of name=value strings
// edited in place, refines an ordered map.

module EnvMap {

  const NUL: char := '\0'

  datatype Option<T> = None | Some(value: T)

  datatype Var = Var(name: string, value: string)

  // Names the editor is given: non-empty, without '=' or NUL.
  predicate IsName(s: string) {
    s != [] && '=' !in s && NUL !in s
  }

  predicate IsValue(s: string) {
    NUL !in s
  }

  // An ordered map: every name once.
  ghost predicate IsMap(vars: seq<Var>) {
    && (forall k :: 0 <= k < |vars| ==> IsName(vars[k].name) && IsValue(vars[k].value))
    && (forall j, k :: 0 <= j < k < |vars| ==> vars[j].name != vars[k].name)
  }

  function Lookup(vars: seq<Var>, name: string): Option<string> {
    if vars == [] then None
    else if vars[0].name == name then Some(vars[0].value)
    else Lookup(vars[1..], name)
  }

  function Without(vars: seq<Var>, name: string): seq<Var> {
    if vars == [] then []
    else if vars[0].name == name then Without(vars[1..], name)
    else [vars[0]] + Without(vars[1..], name)
  }

  function With(vars: seq<Var>, name: string, value: string): seq<Var> {
    Without(vars, name) + [Var(name, value)]
  }

  lemma {:induction false} WithoutMembers(vars: seq<Var>, name: string)
    ensures forall v :: v in Without(vars, name) <==> v in vars && v.name != name
  {
    if vars != [] {
      WithoutMembers(vars[1..], name);
      assert forall v :: v in vars <==> v == vars[0] || v in vars[1..];
    }
  }

  lemma IsMapTail(vars: seq<Var>)
    requires IsMap(vars) && vars != []
    ensures IsMap(vars[1..])
    ensures forall v :: v in vars[1..] ==> v.name != vars[0].name
  {
    forall v | v in vars[1..]
      ensures v.name != vars[0].name
    {
      var k :| 0 <= k < |vars[1..]| && vars[1..][k] == v;
      assert vars[k + 1] == v;
    }
  }

  lemma {:induction false} WithoutIsMap(vars: seq<Var>, name: string)
    requires IsMap(vars)
    ensures IsMap(Without(vars, name))
  {
    if vars != [] {
      IsMapTail(vars);
      WithoutIsMap(vars[1..], name);
      WithoutMembers(vars[1..], name);
      if vars[0].name != name { ConsIsMap(vars[0], Without(vars[1..], name)); }
    }
  }

  lemma ConsIsMap(v: Var, rest: seq<Var>)
    requires IsMap(rest) && IsName(v.name) && IsValue(v.value) && forall w :: w in rest ==> w.name != v.name
    ensures IsMap([v] + rest)
  {
    var s := [v] + rest;
    forall k | 0 <= k < |s|
      ensures IsName(s[k].name) && IsValue(s[k].value)
    {
      if k > 0 { assert s[k] == rest[k - 1]; }
    }
    forall j, k | 0 <= j < k < |s|
      ensures s[j].name != s[k].name
    {
      assert s[k] == rest[k - 1] && rest[k - 1] in rest;
      if j > 0 { assert s[j] == rest[j - 1]; }
    }
  }

  lemma WithIsMap(vars: seq<Var>, name: string, value: string)
    requires IsMap(vars) && IsName(name) && IsValue(value)
    ensures IsMap(With(vars, name, value))
  {
    WithoutIsMap(vars, name);
    WithoutMembers(vars, name);
    var w := Without(vars, name);
    var s := With(vars, name, value);
    forall j, k | 0 <= j < k < |s|
      ensures s[j].name != s[k].name
    {
      assert s[j] == w[j] && w[j] in w;
    }
  }

  // getenv after setenv: the last value set, and no other variable changed.
  lemma {:induction false} LookupWithout(vars: seq<Var>, name: string, other: string)
    ensures Lookup(Without(vars, name), other) == if other == name then None else Lookup(vars, other)
  {
    if vars != [] {
      LookupWithout(vars[1..], name, other);
      if vars[0].name != name { assert ([vars[0]] + Without(vars[1..], name))[1..] == Without(vars[1..], name); }
    }
  }

  lemma {:induction false} LookupAppend(vars: seq<Var>, v: Var, name: string)
    ensures Lookup(vars + [v], name) ==
            if Lookup(vars, name).Some? then Lookup(vars, name) else if v.name == name then Some(v.value) else None
  {
    if vars == [] {
      assert vars + [v] == [v];
    } else {
      assert (vars + [v])[1..] == vars[1..] + [v];
      LookupAppend(vars[1..], v, name);
    }
  }

  lemma LookupWith(vars: seq<Var>, name: string, value: string, other: string)
    ensures Lookup(With(vars, name, value), other) == if other == name then Some(value) else Lookup(vars, other)
  {
    LookupWithout(vars, name, other);
    LookupAppend(Without(vars, name), Var(name, value), other);
  }

  // Deleting or replacing keeps the order of the others: of any two of them,
  // the earlier one stays the earlier one.
  lemma {:induction false} OrderKept(vars: seq<Var>, name: string, i: int, j: int) returns (i': int, j': int)
    requires 0 <= i < j < |vars| && vars[i].name != name && vars[j].name != name
    ensures 0 <= i' < j' < |Without(vars, name)|
    ensures Without(vars, name)[i'] == vars[i] && Without(vars, name)[j'] == vars[j]
  {
    if i > 0 {
      i', j' := OrderKept(vars[1..], name, i - 1, j - 1);
      if vars[0].name != name { i', j' := i' + 1, j' + 1; }
    } else {
      j' := Kept(vars[1..], name, j - 1);
      i', j' := 0, j' + 1;
    }
  }

  lemma {:induction false} Kept(vars: seq<Var>, name: string, j: int) returns (j': int)
    requires 0 <= j < |vars| && vars[j].name != name
    ensures 0 <= j' < |Without(vars, name)| && Without(vars, name)[j'] == vars[j]
  {
    if j == 0 {
      j' := 0;
    } else {
      j' := Kept(vars[1..], name, j - 1);
      if vars[0].name != name { j' := j' + 1; }
    }
  }

  // ---- the buffer ----

  function Entry(v: Var): (s: string)
    ensures |s| == |v.name| + |v.value| + 2
  {
    v.name + "=" + v.value + [NUL]
  }

  function Ser(vars: seq<Var>): string {
    if vars == [] then [] else Entry(vars[0]) + Ser(vars[1..])
  }

  // What terminates the strings: the empty environment is two NULs.
  function End(vars: seq<Var>): string {
    if vars == [] then [NUL, NUL] else [NUL]
  }

  ghost predicate Holds(d: string, vars: seq<Var>) {
    Ser(vars) + End(vars) <= d
  }

  lemma {:induction false} SerAppend(a: seq<Var>, b: seq<Var>)
    ensures Ser(a + b) == Ser(a) + Ser(b)
  {
    if a == [] {
      assert a + b == b;
    } else {
      assert (a + b)[1..] == a[1..] + b;
      SerAppend(a[1..], b);
    }
  }

  lemma SerOne(v: Var)
    ensures Ser([v]) == Entry(v)
  {
    assert Ser([v]) == Entry(v) + Ser([v][1..]);
  }

  lemma SerSplit(vars: seq<Var>, k: nat)
    requires k < |vars|
    ensures Ser(vars) == Ser(vars[..k]) + Entry(vars[k]) + Ser(vars[k + 1..])
    ensures Ser(vars[..k + 1]) == Ser(vars[..k]) + Entry(vars[k])
  {
    hide Ser, Entry;
    SerPrefix(vars, k);
    SerHalves(vars, k + 1);
  }

  lemma SerPrefix(vars: seq<Var>, k: nat)
    requires k < |vars|
    ensures Ser(vars[..k + 1]) == Ser(vars[..k]) + Entry(vars[k])
  {
    hide Ser, Entry;
    assert vars[..k + 1] == vars[..k] + [vars[k]];
    SerAppend(vars[..k], [vars[k]]);
    SerOne(vars[k]);
  }

  lemma SerHalves(vars: seq<Var>, k: nat)
    requires k <= |vars|
    ensures Ser(vars) == Ser(vars[..k]) + Ser(vars[k..])
  {
    hide Ser, Entry;
    assert vars == vars[..k] + vars[k..];
    SerAppend(vars[..k], vars[k..]);
  }

  // Within an entry only the last character is NUL.
  lemma EntryChars(v: Var)
    requires IsName(v.name) && IsValue(v.value)
    ensures forall i :: 0 <= i < |Entry(v)| ==> (Entry(v)[i] == NUL <==> i == |Entry(v)| - 1)
    ensures |Entry(v)| >= 3
    ensures forall i :: 0 <= i < |v.name| ==> Entry(v)[i] == v.name[i] && v.name[i] != '=' && v.name[i] != NUL
    ensures Entry(v)[|v.name|] == '='
    ensures Entry(v)[|v.name| + 1..] == v.value + [NUL]
  {
    forall i | 0 <= i < |Entry(v)|
      ensures Entry(v)[i] == NUL <==> i == |Entry(v)| - 1
    {
      if i < |v.name| {
        assert Entry(v)[i] == v.name[i] && v.name[i] in v.name;
      } else if |v.name| < i < |Entry(v)| - 1 {
        assert Entry(v)[i] == v.value[i - |v.name| - 1] && v.value[i - |v.name| - 1] in v.value;
      }
    }
    assert forall i :: 0 <= i < |v.name| ==> v.name[i] in v.name;
  }

  predicate DoubleNul(d: string, i: int) {
    0 <= i < |d| - 1 && d[i] == NUL && d[i + 1] == NUL
  }

  // Two NULs in a row mark the end, and nothing else does.
  lemma {:induction false} OneEnd(vars: seq<Var>)
    requires IsMap(vars)
    ensures var s := Ser(vars) + End(vars);
            forall i {:trigger DoubleNul(s, i)} :: 0 <= i < |s| - 1 ==> (DoubleNul(s, i) <==> i == |s| - 2)
    ensures vars != [] ==> Ser(vars) != [] && Ser(vars)[0] != NUL && Ser(vars)[|Ser(vars)| - 1] == NUL
  {
    if vars != [] {
      var v, rest := vars[0], vars[1..];
      IsMapTail(vars);
      EntryChars(v);
      OneEnd(rest);
      var e, s := Entry(v), Ser(vars) + End(vars);
      if rest == [] {
        assert s == e + [NUL];
      } else {
        var r := Ser(rest) + End(rest);
        assert s == e + r;
        forall i | 0 <= i < |s| - 1
          ensures DoubleNul(s, i) <==> i == |s| - 2
        {
          if i >= |e| { assert DoubleNul(s, i) <==> DoubleNul(r, i - |e|); }
          else if i == |e| - 1 { assert s[i + 1] == r[0]; }
          else { assert s[i] == e[i]; }
        }
      }
    }
  }

  // Where variable k lies in the buffer.
  lemma EntryAt(d: string, vars: seq<Var>, k: nat)
    requires Holds(d, vars) && k < |vars|
    ensures var a := |Ser(vars[..k])|;
            a + |Entry(vars[k])| < |d| && d[a..a + |Entry(vars[k])|] == Entry(vars[k])
            && |Ser(vars[..k + 1])| == a + |Entry(vars[k])|
  {
    SerSplit(vars, k);
    var a, e := |Ser(vars[..k])|, Entry(vars[k]);
    var s := Ser(vars) + End(vars);
    assert d[..|s|] == s;
    assert s[a..a + |e|] == e;
  }

  lemma EndAt(d: string, vars: seq<Var>)
    requires Holds(d, vars)
    ensures |Ser(vars)| < |d| && d[|Ser(vars)|] == NUL
  {
    var s := Ser(vars) + End(vars);
    assert d[|Ser(vars)|] == s[|Ser(vars)|];
  }
}

module Environment {
  import opened EnvMap

  const ENV_SIZE: int := 4092

  // The names setenv treats specially before it edits anything.
  const SET_ONCE := ["serial#", "ethaddr"]
  const CONSOLE := ["stdin", "stdout", "stderr"]
  const BAUDRATE := "baudrate"

  // argv[2..], joined by spaces.
  function Joined(args: seq<string>): string
    requires args != []
  {
    var n := |args| - 1;
    if n == 0 then args[0] else Joined(args[..n]) + " " + args[n]
  }

  function SumLen(args: seq<string>): int {
    if args == [] then 0 else SumLen(args[..|args| - 1]) + |args[|args| - 1]| + 1
  }

  lemma {:induction false} JoinedLen(args: seq<string>)
    requires args != [] && forall i :: 0 <= i < |args| ==> IsValue(args[i])
    ensures |Joined(args)| + 1 == SumLen(args) && IsValue(Joined(args))
  {
    if |args| > 1 { JoinedLen(args[..|args| - 1]); }
  }

  lemma {:induction false} SumLenMonotone(args: seq<string>, i: nat)
    requires i <= |args|
    ensures SumLen(args[..i]) <= SumLen(args)
    decreases |args|
  {
    if i < |args| {
      assert args[..|args| - 1][..i] == args[..i];
      SumLenMonotone(args[..|args| - 1], i);
    } else {
      assert args[..i] == args;
    }
  }

  // What has been written once i of the arguments are.
  function Text(name: string, args: seq<string>, i: nat): string
    requires i <= |args|
  {
    if i == 0 then name else name + "=" + Joined(args[..i])
  }

  lemma TextStep(name: string, args: seq<string>, i: nat)
    requires i < |args|
    ensures Text(name, args, i + 1) == Text(name, args, i) + (if i == 0 then "=" else " ") + args[i]
    ensures |Text(name, args, i)| == |name| + SumLen(args[..i])
    ensures |Text(name, args, i + 1)| + 2 == |Text(name, args, i)| + 2 + |args[i]| + 1
    ensures |name| + SumLen(args[..i + 1]) == |Text(name, args, i + 1)|
  {
    assert args[..i + 1][..i] == args[..i];
    TextLen(name, args, i);
    TextLen(name, args, i + 1);
  }

  lemma {:induction false} TextLen(name: string, args: seq<string>, i: nat)
    requires i <= |args|
    ensures |Text(name, args, i)| == |name| + SumLen(args[..i])
    decreases i
  {
    if i > 1 {
      assert args[..i][..i - 1] == args[..i - 1];
      TextLen(name, args, i - 1);
    }
  }

  // d with s written over it at a.
  function Over(d: string, a: int, s: string): (d': string)
    requires 0 <= a && a + |s| <= |d|
    ensures |d'| == |d|
  {
    d[..a] + s + d[a + |s|..]
  }

  lemma OverTwice(d: string, a: int, s: string, t: string)
    requires 0 <= a && a + |s| + |t| <= |d|
    ensures Over(Over(d, a, s), a + |s|, t) == Over(d, a, s + t)
  {
  }

  // The terminator of s is where t then starts.
  lemma OverTerminator(d: string, a: int, s: string, t: string)
    requires 0 <= a && a + |s| + |t| <= |d| && t != []
    ensures Over(Over(d, a, s + [NUL]), a + |s|, t) == Over(d, a, s + t)
  {
  }

  // The C string at index val is s.
  ghost predicate StringAt(d: string, val: int, s: string) {
    0 <= val && val + |s| < |d| && d[val..val + |s| + 1] == s + [NUL]
  }

  function CString(s: string, j: int): char
    requires 0 <= j
  {
    if j < |s| then s[j] else NUL
  }

  class Editor {
    const data: array<char>
    const crc32: string -> int
    var crc: int
    ghost var vars: seq<Var>

    ghost predicate Valid()
      reads this, data
    {
      data.Length == ENV_SIZE && IsMap(vars) && Holds(data[..], vars)
    }

    ghost predicate CrcCurrent()
      reads this, data
    {
      crc == crc32(data[..])
    }

    // An erased environment.
    constructor (crc32: string -> int)
      ensures Valid() && vars == [] && CrcCurrent() && this.crc32 == crc32
    {
      data := new char[ENV_SIZE](_ => NUL);
      this.crc32 := crc32;
      vars := [];
      new;
      crc := crc32(data[..]);
    }

    method EnvCrcUpdate()
      requires Valid()
      modifies `crc
      ensures Valid() && CrcCurrent() && vars == old(vars)
    {
      crc := crc32(data[..]);
    }

    // Matches the name against the entry of variable k, which starts at i2.
    method EnvMatch(name: string, i2: int, ghost k: nat) returns (r: int)
      requires Valid() && IsName(name) && k < |vars| && i2 == |Ser(vars[..k])|
      ensures if name == vars[k].name then r == i2 + |name| + 1 else r == -1
    {
      hide IsMap, Holds, Entry, Ser, IsName, IsValue;
      NamesOf(vars, k);
      NameChars(name);
      EntryAt(data[..], vars, k);
      EntryChars(vars[k]);
      ghost var e := Entry(vars[k]);
      assert forall i :: 0 <= i < |e| ==> data[i2 + i] == e[i] by { EntryInArray(data[..], i2, e); }
      var s1, i := 0, i2;
      var c := data[i];
      i := i + 1;
      while CString(name, s1) == c
        invariant 0 <= s1 <= |name| && s1 <= |vars[k].name| && i == i2 + s1 + 1 && c == data[i2 + s1]
        invariant forall j :: 0 <= j < s1 ==> name[j] == vars[k].name[j]
        decreases |name| - s1
      {
        assert c == e[s1];
        if c == '=' {
          return i;
        }
        s1 := s1 + 1;
        c := data[i];
        i := i + 1;
      }
      assert c == e[s1];
      if CString(name, s1) == NUL && data[i - 1] == '=' {
        assert s1 == |name|;
        assert name == vars[k].name;
        return i;
      }
      return -1;
    }

    // Where the entry that starts at `env` ends.
    method EndOfEntry(env: int, ghost k: nat) returns (nxt: int)
      requires Valid() && k < |vars| && env == |Ser(vars[..k])|
      ensures nxt == env + |Entry(vars[k])| - 1 && nxt + 1 < data.Length
    {
      hide IsMap, Holds, Entry, Ser, IsName, IsValue;
      NamesOf(vars, k);
      EntryAt(data[..], vars, k);
      EntryChars(vars[k]);
      ghost var e := Entry(vars[k]);
      EntryInArray(data[..], env, e);
      nxt := env;
      while data[nxt] != NUL
        invariant env <= nxt <= env + |e| - 1
        decreases env + |e| - nxt
      {
        assert data[..][env + (nxt - env)] == e[nxt - env];
        nxt := nxt + 1;
      }
      assert data[..][env + (nxt - env)] == e[nxt - env];
    }

    // The search of getenv and setenv: k is the variable's place, or |vars|.
    method Find(name: string) returns (env: int, nxt: int, oldval: int, ghost k: nat)
      requires Valid() && IsName(name)
      ensures k <= |vars| && forall j :: 0 <= j < k ==> vars[j].name != name
      ensures k == |vars| ==> oldval == -1
      ensures k < |vars| ==> vars[k].name == name && env == |Ser(vars[..k])|
      ensures k < |vars| ==> nxt == env + |Entry(vars[k])| - 1 && oldval == env + |name| + 1
    {
      hide IsMap, Holds, Entry, Ser, IsName, IsValue;
      oldval, env, nxt, k := -1, 0, 0, 0;
      SerNone(vars);
      FirstChar(data[..], vars, 0);
      while data[env] != NUL
        invariant k <= |vars| && env == |Ser(vars[..k])| < data.Length && oldval == -1
        invariant data[env] == NUL <==> k == |vars|
        invariant forall j :: 0 <= j < k ==> vars[j].name != name
        decreases |vars| - k
      {
        nxt := EndOfEntry(env, k);
        oldval := EnvMatch(name, env, k);
        if oldval >= 0 {
          return;
        }
        SerPrefix(vars, k);
        FirstChar(data[..], vars, k + 1);
        env := nxt + 1;
        k := k + 1;
      }
    }

    // getenv: the index of the value, as the stored string that starts there.
    method GetEnv(name: string) returns (val: int)
      requires Valid() && IsName(name)
      ensures Lookup(vars, name).None? ==> val == -1
      ensures Lookup(vars, name).Some? ==> StringAt(data[..], val, Lookup(vars, name).value)
    {
      hide IsMap, Holds, Entry, Ser, IsName, IsValue;
      var env, nxt, oldval;
      ghost var k;
      env, nxt, oldval, k := Find(name);
      LookupAt(vars, name, k);
      if k < |vars| { ValueAt(data[..], vars, k); }
      return oldval;
    }

    // Close the gap over the entry at [env, nxt].
    method Delete(env0: int, nxt0: int, ghost k: nat)
      requires Valid() && k < |vars| && env0 == |Ser(vars[..k])| && nxt0 == env0 + |Entry(vars[k])| - 1
      modifies data, `vars
      ensures Valid() && vars == old(vars[..k] + vars[k + 1..])
    {
      hide IsMap, Holds, Entry, Ser, IsName, IsValue, End;
      var env, nxt := env0, nxt0;
      ghost var d0 := data[..];
      ghost var b := Ser(vars[k + 1..]);
      Gap(d0, vars, k, b);
      nxt := nxt + 1;
      if data[nxt] == NUL {
        if env > 0 {
          env := env - 1;
        } else {
          data[env] := NUL;
        }
      } else {
        ghost var t := 0;
        while true
          invariant vars == old(vars) && 0 <= t < |b| && env == env0 + t && nxt == nxt0 + 1 + t
          invariant forall i :: 0 <= i < env0 ==> data[i] == d0[i]
          invariant forall i :: 0 <= i < t ==> data[env0 + i] == b[i]
          invariant forall i :: env <= i < data.Length ==> data[i] == d0[i]
          decreases |b| - t
        {
          assert TextAt(d0, nxt0 + 1, b, t);
          data[env] := data[nxt];
          nxt := nxt + 1;
          if data[env] == NUL && data[nxt] == NUL {
            break;
          }
          env := env + 1;
          t := t + 1;
        }
      }
      env := env + 1;
      data[env] := NUL;
      GapClosed(d0, data[..], vars, k);
      vars := vars[..k] + vars[k + 1..];
    }

    // Behind the last string.
    method EndOfStrings() returns (env: int)
      requires Valid()
      ensures env == |Ser(vars)|
    {
      hide IsMap, Holds, Ser, End;
      env := 0;
      ghost var p := LastEnd(data[..], vars);
      while data[env] != NUL || data[env + 1] != NUL
        invariant 0 <= env <= p
        decreases p - env
      {
        assert !DoubleNul(data[..], env);
        env := env + 1;
      }
      assert DoubleNul(data[..], env);
      if env > 0 {
        env := env + 1;
      }
    }

    // while ((*env = *s++) != 0) env++;
    method CopyString(at: int, s: string) returns (env: int)
      requires 0 <= at && at + |s| < data.Length && IsValue(s)
      modifies data
      ensures env == at + |s| && data[..] == Over(old(data[..]), at, s + [NUL])
    {
      var i := 0;
      env := at;
      ghost var d0 := data[..];
      while true
        invariant 0 <= i <= |s| && env == at + i
        invariant data[..] == Over(d0, at, s[..i])
        decreases |s| - i
      {
        data[env] := CString(s, i);
        assert data[..] == Over(d0, at, s[..i] + [CString(s, i)]);
        if data[env] == NUL {
          EndOfCString(s, i);
          assert s[..i] == s;
          break;
        }
        assert s[..i] + [s[i]] == s[..i + 1];
        env := env + 1;
        i := i + 1;
      }
    }

    method Append(at: int, name: string, args: seq<string>)
      requires 0 <= at && args != [] && IsValue(name) && forall i :: 0 <= i < |args| ==> IsValue(args[i])
      requires at + |name| + 2 + SumLen(args) <= data.Length
      modifies data
      ensures at + |name + "=" + Joined(args)| + 2 <= data.Length
      ensures data[..] == Over(old(data[..]), at, name + "=" + Joined(args) + [NUL, NUL])
    {
      hide Joined, SumLen, Over, Text;
      ghost var d0 := data[..];
      TextStart(name, args);
      SumLenMonotone(args, 0);
      var env := CopyString(at, name);
      var i := 0;
      while i < |args|
        invariant 0 <= i <= |args| && env == at + |Text(name, args, i)|
        invariant |Text(name, args, i)| == |name| + SumLen(args[..i])
        invariant at + |Text(name, args, i) + [NUL]| <= data.Length
        invariant data[..] == Over(d0, at, Text(name, args, i) + [NUL])
      {
        TextStep(name, args, i);
        SumLenMonotone(args, i + 1);
        var c := if i == 0 then '=' else ' ';
        OverTerminator(d0, at, Text(name, args, i), [c]);
        data[env] := c;
        OverOne(Over(d0, at, Text(name, args, i) + [NUL]), env, c);
        OverTwice(d0, at, Text(name, args, i) + [c], args[i] + [NUL]);
        env := CopyString(env + 1, args[i]);
        assert Text(name, args, i) + [c] + (args[i] + [NUL]) == Text(name, args, i + 1) + [NUL];
        i := i + 1;
      }
      TextWhole(name, args);
      env := env + 1;
      OverOne(data[..], env, NUL);
      data[env] := NUL;
      OverTwice(d0, at, Text(name, args, i) + [NUL], [NUL]);
      assert Text(name, args, i) + [NUL] + [NUL] == name + "=" + Joined(args) + [NUL, NUL];
    }

    // _do_setenv; no arguments (or a NULL one) delete the variable.  `accepts`:
    // what console_assign, or the table of baud rates, says to the new value.
    method SetEnv(name: string, args: seq<string>, accepts: bool) returns (r: int)
      requires Valid() && IsName(name) && forall i :: 0 <= i < |args| ==> IsValue(args[i])
      modifies data, `crc, `vars
      ensures Valid() && r == Code(old(vars), Call(name, args, accepts))
        && vars == Set(old(vars), Call(name, args, accepts))
      ensures r == 0 ==> CrcCurrent()
      ensures r != 0 ==> crc == old(crc)
      ensures Refused(old(vars), Call(name, args, accepts)) ==> data[..] == old(data[..])
    {
      hide IsMap, Holds, Entry, Ser, IsName, IsValue, End, Joined, Over, Without, Fits, SumLen, Lookup;
      var env, nxt, oldval;
      ghost var k;
      env, nxt, oldval, k := Find(name);
      LookupAt(vars, name, k);
      WithoutAt(vars, name, k);
      WithoutMembers(vars, name);
      WithIs(vars, name, args);
      NameIsValue(name);
      if oldval >= 0 {
        if name in SET_ONCE || (name in CONSOLE && (args == [] || !accepts)) || (name == BAUDRATE && !accepts) {
          return 1;
        }
        Delete(env, nxt, k);
      }
      if args == [] {
        EnvCrcUpdate();
        return 0;
      }
      env := EndOfStrings();
      var len := NewLength(name, args);
      FitsIs(vars, name, args);
      if len > data.Length - env {
        return 1;
      }
      ghost var d0 := data[..];
      Append(env, name, args);
      Appended(d0, data[..], vars, name, args);
      vars := vars + [Var(name, Joined(args))];
      EnvCrcUpdate();
      return 0;
    }

    // Any number of setenv calls, and a getenv behind them.
    method SetAllThenGet(calls: seq<Call>, name: string) returns (codes: seq<int>, val: int)
      requires Valid() && IsName(name) && forall c :: c in calls ==> IsCall(c)
      modifies data, `crc, `vars
      ensures Valid() && vars == SetAll(old(vars), calls) && |codes| == |calls|
      ensures forall i :: 0 <= i < |calls| ==> codes[i] == Code(SetAll(old(vars), calls[..i]), calls[i])
      ensures calls != [] && codes[|calls| - 1] == 0 ==> CrcCurrent()
      ensures Lookup(vars, name).None? ==> val == -1
      ensures Lookup(vars, name).Some? ==> StringAt(data[..], val, Lookup(vars, name).value)
    {
      hide IsMap, Holds, IsName, Code, Set;
      codes := [];
      while |codes| < |calls|
        invariant |codes| <= |calls| && Valid() && vars == SetAll(old(vars), calls[..|codes|])
        invariant forall i :: 0 <= i < |codes| ==> codes[i] == Code(SetAll(old(vars), calls[..i]), calls[i])
        invariant codes != [] && codes[|codes| - 1] == 0 ==> CrcCurrent()
      {
        var i := |codes|;
        var c := calls[i];
        assert c in calls && calls[..i + 1][..i] == calls[..i];
        var code := SetEnv(c.name, c.args, c.accepts);
        codes := codes + [code];
      }
      assert calls[..|codes|] == calls;
      val := GetEnv(name);
    }
  }

  datatype Call = Call(name: string, args: seq<string>, accepts: bool)

  predicate IsCall(c: Call) {
    IsName(c.name) && forall i :: 0 <= i < |c.args| ==> IsValue(c.args[i])
  }

  // A variable that exists may be set only once, or only to what the console or
  // the serial line accepts.
  predicate Refused(vars: seq<Var>, c: Call) {
    && Lookup(vars, c.name).Some?
    && (c.name in SET_ONCE || (c.name in CONSOLE && (c.args == [] || !c.accepts)) || (c.name == BAUDRATE && !c.accepts))
  }

  // The ordered map after a call: a set puts the variable last, a deletion, or a
  // set that does not fit, takes it out.
  ghost function Set(vars: seq<Var>, c: Call): seq<Var> {
    if Refused(vars, c) then vars
    else if c.args != [] && Fits(With(vars, c.name, Joined(c.args))) then With(vars, c.name, Joined(c.args))
    else Without(vars, c.name)
  }

  ghost function Code(vars: seq<Var>, c: Call): int {
    if Refused(vars, c) || (c.args != [] && !Fits(With(vars, c.name, Joined(c.args)))) then 1 else 0
  }

  ghost function SetAll(vars: seq<Var>, calls: seq<Call>): seq<Var> {
    if calls == [] then vars else Set(SetAll(vars, calls[..|calls| - 1]), calls[|calls| - 1])
  }

  lemma EndOfCString(s: string, i: int)
    requires IsValue(s) && 0 <= i <= |s| && CString(s, i) == NUL
    ensures i == |s|
  {
    assert forall j :: 0 <= j < |s| ==> s[j] in s;
  }

  method NewLength(name: string, args: seq<string>) returns (len: int)
    ensures len == |name| + 2 + SumLen(args)
  {
    hide SumLen;
    TextStart(name, args);
    len := |name| + 2;
    var i := 0;
    while i < |args|
      invariant 0 <= i <= |args| && len == |name| + 2 + SumLen(args[..i])
    {
      SumLenStep(args, i);
      len := len + |args[i]| + 1;
      i := i + 1;
    }
    assert args[..i] == args;
  }

  // The variables and their terminator fit the buffer.
  ghost predicate Fits(vars: seq<Var>) {
    |Ser(vars)| + 1 <= ENV_SIZE
  }

  lemma LastEnd(d: string, vars: seq<Var>) returns (p: int)
    requires IsMap(vars) && Holds(d, vars)
    ensures 0 <= p < |d| - 1 && (if p == 0 then |Ser(vars)| == 0 else p + 1 == |Ser(vars)|)
    ensures forall i :: 0 <= i <= p ==> (DoubleNul(d, i) <==> i == p)
  {
    var s := Ser(vars) + End(vars);
    OneEnd(vars);
    p := |s| - 2;
    EmptySer(vars);
    forall i | 0 <= i <= p
      ensures DoubleNul(d, i) <==> i == p
    {
      assert d[i] == s[i] && d[i + 1] == s[i + 1];
      assert DoubleNul(s, i) <==> i == p;
    }
    if vars != [] { LongSer(vars); }
  }

  lemma LongSer(vars: seq<Var>)
    requires vars != []
    ensures |Ser(vars)| >= 2
  {
  }

  lemma OverOne(d: string, at: int, c: char)
    requires 0 <= at < |d|
    ensures Over(d, at, [c]) == d[at := c]
  {
  }

  lemma TextStart(name: string, args: seq<string>)
    ensures Text(name, args, 0) == name && SumLen(args[..0]) == 0
  {
  }

  lemma TextWhole(name: string, args: seq<string>)
    requires args != []
    ensures Text(name, args, |args|) == name + "=" + Joined(args)
    ensures |name + "=" + Joined(args)| == |name| + SumLen(args)
  {
    assert args[..|args|] == args;
    TextLen(name, args, |args|);
  }

  lemma SumLenStep(args: seq<string>, i: nat)
    requires i < |args|
    ensures SumLen(args[..i + 1]) == SumLen(args[..i]) + |args[i]| + 1
  {
    assert args[..i + 1][..i] == args[..i];
  }

  lemma {:induction false} WithoutAbsent(vars: seq<Var>, name: string)
    requires forall j :: 0 <= j < |vars| ==> vars[j].name != name
    ensures Without(vars, name) == vars
  {
    if vars != [] { WithoutAbsent(vars[1..], name); }
  }

  lemma {:induction false} WithoutAt(vars: seq<Var>, name: string, k: nat)
    requires IsMap(vars) && k <= |vars| && forall j :: 0 <= j < k ==> vars[j].name != name
    requires k < |vars| ==> vars[k].name == name
    ensures Without(vars, name) == if k < |vars| then vars[..k] + vars[k + 1..] else vars
    decreases k
  {
    if k == |vars| {
      WithoutAbsent(vars, name);
    } else if k == 0 {
      WithoutAbsent(vars[1..], name);
    } else {
      IsMapTail(vars);
      assert forall j :: 0 <= j < k - 1 ==> vars[1..][j] == vars[j + 1];
      WithoutAt(vars[1..], name, k - 1);
      Shifted(vars, k);
    }
  }

  lemma Shifted<T>(s: seq<T>, k: nat)
    requires 0 < k < |s|
    ensures [s[0]] + (s[1..][..k - 1] + s[1..][k..]) == s[..k] + s[k + 1..]
  {
  }

  lemma WithIs(vars: seq<Var>, name: string, args: seq<string>)
    ensures args != [] ==> With(vars, name, Joined(args)) == Without(vars, name) + [Var(name, Joined(args))]
  {
  }

  lemma NameIsValue(name: string)
    requires IsName(name)
    ensures IsValue(name)
  {
  }

  // The overflow test asks whether the new environment fits.
  lemma FitsIs(rest: seq<Var>, name: string, args: seq<string>)
    requires args != [] && forall i :: 0 <= i < |args| ==> IsValue(args[i])
    ensures Fits(rest + [Var(name, Joined(args))]) <==> |name| + 2 + SumLen(args) <= ENV_SIZE - |Ser(rest)|
    ensures |name| + 2 + SumLen(args) == |Entry(Var(name, Joined(args)))| + 1
    ensures IsValue(Joined(args))
  {
    JoinedLen(args);
    SerAppend(rest, [Var(name, Joined(args))]);
    SerOne(Var(name, Joined(args)));
  }

  lemma Appended(d0: string, d: string, vars: seq<Var>, name: string, args: seq<string>)
    requires IsMap(vars) && Holds(d0, vars) && IsName(name) && args != []
    requires forall i :: 0 <= i < |args| ==> IsValue(args[i])
    requires forall v :: v in vars ==> v.name != name
    requires |Ser(vars)| + |name + "=" + Joined(args)| + 2 <= |d0|
    requires d == Over(d0, |Ser(vars)|, name + "=" + Joined(args) + [NUL, NUL])
    ensures IsMap(vars + [Var(name, Joined(args))]) && Holds(d, vars + [Var(name, Joined(args))])
  {
    var v := Var(name, Joined(args));
    FitsIs(vars, name, args);
    ConsLast(vars, v);
    SerAppend(vars, [v]);
    SerOne(v);
    HoldsSer(d0, vars);
    assert name + "=" + Joined(args) + [NUL, NUL] == Entry(v) + [NUL];
    OverHolds(d0, d, vars, v);
  }

  lemma OverHolds(d0: string, d: string, vars: seq<Var>, v: Var)
    requires |Ser(vars)| + |Entry(v)| + 1 <= |d0| && d0[..|Ser(vars)|] == Ser(vars)
    requires d == Over(d0, |Ser(vars)|, Entry(v) + [NUL]) && Ser(vars + [v]) == Ser(vars) + Entry(v)
    ensures Holds(d, vars + [v])
  {
    hide Ser, Entry;
    var s := Ser(vars) + Entry(v) + [NUL];
    assert d[..|s|] == s;
    assert Ser(vars + [v]) + End(vars + [v]) == s;
  }

  lemma ConsLast(vars: seq<Var>, v: Var)
    requires IsMap(vars) && IsName(v.name) && IsValue(v.value) && forall w :: w in vars ==> w.name != v.name
    ensures IsMap(vars + [v])
  {
    var s := vars + [v];
    forall j, k | 0 <= j < k < |s|
      ensures s[j].name != s[k].name
    {
      assert s[j] == vars[j] && vars[j] in vars;
    }
  }

  // What lies around the entry that is taken out.
  lemma Gap(d: string, vars: seq<Var>, k: nat, b: string)
    requires IsMap(vars) && Holds(d, vars) && k < |vars| && b == Ser(vars[k + 1..])
    ensures var a, n := |Ser(vars[..k])|, |Ser(vars[..k])| + |Entry(vars[k])|;
            && |Entry(vars[k])| >= 3 && n + |b| < |d| && d[n + |b|] == NUL
            && (b == [] <==> d[n] == NUL)
            && (forall i :: 0 <= i < |b| ==> TextAt(d, n, b, i))
            && (a > 0 ==> d[a - 1] == NUL)
  {
    hide Holds, Entry;
    SerSplit(vars, k);
    GapSlices(d, Ser(vars[..k]), Entry(vars[k]), Ser(vars[k + 1..]), vars);
    PartMaps(vars, k);
    EntryChars(vars[k]);
    GapEnds(d, vars[..k], vars[k + 1..], b, |Ser(vars[..k])|, |Ser(vars[..k])| + |Entry(vars[k])|);
  }

  lemma GapSlices(d: string, pre: string, e: string, b: string, vars: seq<Var>)
    requires Holds(d, vars) && Ser(vars) == pre + e + b
    ensures |pre| + |e| + |b| < |d| && d[..|pre|] == pre && d[|pre| + |e| + |b|] == NUL
    ensures forall i :: 0 <= i < |b| ==> d[|pre| + |e| + i] == b[i]
  {
    hide Ser;
    EndAt(d, vars);
    HoldsSer(d, vars);
    var s := pre + e + b;
    assert d[..|s|] == s;
    assert d[..|pre|] == s[..|pre|];
    forall i | 0 <= i < |b|
      ensures d[|pre| + |e| + i] == b[i]
    {
      assert s[|pre| + |e| + i] == b[i];
    }
  }

  lemma HoldsSer(d: string, vars: seq<Var>)
    requires Holds(d, vars)
    ensures |Ser(vars)| <= |d| && d[..|Ser(vars)|] == Ser(vars)
  {
  }

  lemma PartMaps(vars: seq<Var>, k: nat)
    requires IsMap(vars) && k < |vars|
    ensures IsMap(vars[..k]) && IsMap(vars[k + 1..]) && IsMap(vars[..k] + vars[k + 1..])
    ensures IsName(vars[k].name) && IsValue(vars[k].value)
  {
  }

  // The text b lies at n, and ends where two NULs follow one another.
  ghost predicate TextAt(d: string, n: int, b: string, i: int) {
    0 <= n + i < |d| && 0 <= i < |b| && d[n + i] == b[i] && (DoubleNul(d, n + i) <==> i == |b| - 1)
  }

  lemma GapEnds(d: string, pre: seq<Var>, post: seq<Var>, b: string, a: int, n: int)
    requires IsMap(pre) && IsMap(post) && a == |Ser(pre)| && a <= n && n + |b| < |d| && b == Ser(post)
    requires d[..a] == Ser(pre) && d[n + |b|] == NUL
    requires forall i :: 0 <= i < |b| ==> d[n + i] == b[i]
    ensures b == [] <==> d[n] == NUL
    ensures forall i :: 0 <= i < |b| ==> TextAt(d, n, b, i)
    ensures a > 0 ==> d[a - 1] == NUL
  {
    OneEnd(pre);
    OneEnd(post);
    EmptySer(pre);
    EmptySer(post);
    if b != [] { assert d[n + 0] == b[0]; }
    forall i | 0 <= i < |b|
      ensures TextAt(d, n, b, i)
    {
      EndHere(d, post, n, i);
    }
    if a > 0 { assert d[..a][a - 1] == Ser(pre)[a - 1]; }
  }

  lemma EndHere(d: string, post: seq<Var>, n: int, i: int)
    requires IsMap(post) && 0 <= n && n + |Ser(post)| < |d| && d[n + |Ser(post)|] == NUL
    requires forall i :: 0 <= i < |Ser(post)| ==> d[n + i] == Ser(post)[i]
    requires 0 <= i < |Ser(post)|
    ensures DoubleNul(d, n + i) <==> i == |Ser(post)| - 1
  {
    OneEnd(post);
    EmptySer(post);
    var b, s := Ser(post), Ser(post) + End(post);
    assert |s| == |b| + 1 && s[|b|] == NUL;
    assert DoubleNul(s, i) <==> i == |b| - 1;
    assert s[i] == b[i] == d[n + i];
    if i + 1 < |b| { assert s[i + 1] == b[i + 1] == d[n + (i + 1)]; }
  }

  lemma EmptySer(vars: seq<Var>)
    ensures Ser(vars) == [] <==> vars == []
  {
  }

  lemma GapClosed(d0: string, d: string, vars: seq<Var>, k: nat)
    requires IsMap(vars) && Holds(d0, vars) && k < |vars| && |d| == |d0|
    requires var a, b := |Ser(vars[..k])|, Ser(vars[k + 1..]);
             a + |b| + 1 < |d| && d[a + |b|] == NUL && (a + |b| == 0 ==> d[1] == NUL)
             && (forall i :: 0 <= i < a ==> d[i] == d0[i]) && (forall i :: 0 <= i < |b| ==> d[a + i] == b[i])
    ensures IsMap(vars[..k] + vars[k + 1..]) && Holds(d, vars[..k] + vars[k + 1..])
  {
    hide Ser, Entry;
    PartMaps(vars, k);
    SerSplit(vars, k);
    GapSlices(d0, Ser(vars[..k]), Entry(vars[k]), Ser(vars[k + 1..]), vars);
    SerAppend(vars[..k], vars[k + 1..]);
    EmptySer(vars[..k] + vars[k + 1..]);
    var a, b := |Ser(vars[..k])|, Ser(vars[k + 1..]);
    assert d[..a + |b|] == d0[..a] + b;
    HoldsIf(d, vars[..k] + vars[k + 1..]);
  }

  lemma HoldsIf(d: string, vars: seq<Var>)
    requires |Ser(vars)| + 1 < |d| && d[..|Ser(vars)|] == Ser(vars) && d[|Ser(vars)|] == NUL
    requires vars == [] ==> d[1] == NUL
    ensures Holds(d, vars)
  {
    var s := Ser(vars) + End(vars);
    assert vars == [] ==> Ser(vars) == [];
    assert d[..|s|] == s;
  }

  lemma SerNone(vars: seq<Var>)
    ensures Ser(vars[..0]) == []
  {
  }

  // The character at the start of entry k, or NUL behind the last entry.
  lemma FirstChar(d: string, vars: seq<Var>, k: nat)
    requires IsMap(vars) && Holds(d, vars) && k <= |vars|
    ensures |Ser(vars[..k])| < |d| && (d[|Ser(vars[..k])|] == NUL <==> k == |vars|)
  {
    hide Holds, Ser, Entry;
    if k == |vars| {
      assert vars[..k] == vars;
      EndAt(d, vars);
    } else {
      EntryAt(d, vars, k);
      EntryChars(vars[k]);
      EntryInArray(d, |Ser(vars[..k])|, Entry(vars[k]));
      assert d[|Ser(vars[..k])| + 0] == Entry(vars[k])[0];
    }
  }

  lemma {:induction false} LookupAt(vars: seq<Var>, name: string, k: nat)
    requires k <= |vars| && forall j :: 0 <= j < k ==> vars[j].name != name
    requires k < |vars| ==> vars[k].name == name
    ensures Lookup(vars, name) == if k < |vars| then Some(vars[k].value) else None
  {
    if k > 0 { LookupAt(vars[1..], name, k - 1); }
  }

  lemma ValueAt(d: string, vars: seq<Var>, k: nat)
    requires IsMap(vars) && Holds(d, vars) && k < |vars|
    ensures var val := |Ser(vars[..k])| + |vars[k].name| + 1;
            StringAt(d, val, vars[k].value)
  {
    hide Holds, Ser, Entry;
    EntryAt(d, vars, k);
    EntryChars(vars[k]);
    var a, e, n := |Ser(vars[..k])|, Entry(vars[k]), |vars[k].name| + 1;
    assert d[a..a + |e|][n..] == d[a + n..a + |e|];
  }

  lemma NamesOf(vars: seq<Var>, k: nat)
    requires IsMap(vars) && k < |vars|
    ensures IsName(vars[k].name) && IsValue(vars[k].value)
  {
  }

  lemma NameChars(s: string)
    requires IsName(s)
    ensures |s| > 0 && forall j :: 0 <= j < |s| ==> s[j] != '=' && s[j] != NUL
  {
    assert forall j :: 0 <= j < |s| ==> s[j] in s;
  }

  lemma EntryInArray(d: string, a: int, e: string)
    requires 0 <= a && a + |e| <= |d| && d[a..a + |e|] == e
    ensures forall i :: 0 <= i < |e| ==> d[a + i] == e[i]
  {
    forall i | 0 <= i < |e|
      ensures d[a + i] == e[i]
    {
      assert d[a..a + |e|][i] == d[a + i];
    }
  }

  // What the buffer looks like after two variables were set.
  method KnownBuffer(e: Editor)
    requires e.Valid() && e.vars == []
    modifies e, e.data
    ensures e.data[..11] == ['a', '=', 'b', ' ', 'c', NUL, 'd', '=', 'e', NUL, NUL]
  {
    hide Holds;
    var r := e.SetEnv("a", ["b", "c"], true);
    FirstSet();
    r := e.SetEnv("d", ["e"], true);
    SecondSet();
    KnownText(e.data[..]);
  }

  lemma FirstSet()
    ensures Set([], Call("a", ["b", "c"], true)) == [Var("a", "b c")]
  {
    assert ["b", "c"][..1] == ["b"];
    assert Joined(["b", "c"]) == "b c";
  }

  lemma SecondSet()
    ensures Set([Var("a", "b c")], Call("d", ["e"], true)) == [Var("a", "b c"), Var("d", "e")]
  {
    assert Without([Var("a", "b c")], "d") == [Var("a", "b c")];
  }

  lemma KnownText(d: string)
    requires Holds(d, [Var("a", "b c"), Var("d", "e")])
    ensures |d| >= 11 && d[..11] == ['a', '=', 'b', ' ', 'c', NUL, 'd', '=', 'e', NUL, NUL]
  {
    var vars := [Var("a", "b c"), Var("d", "e")];
    assert vars[1..] == [Var("d", "e")] && vars[1..][1..] == [];
    assert Ser(vars) == ['a', '=', 'b', ' ', 'c', NUL] + ['d', '=', 'e', NUL];
    assert Ser(vars) + End(vars) == ['a', '=', 'b', ' ', 'c', NUL, 'd', '=', 'e', NUL, NUL];
  }
}
