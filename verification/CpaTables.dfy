/** Interning: names and contexts become small numbers, and a table turns the numbers back. */
module CpaTables {
  import opened Sequences

  /** A name and a context. */
  type Id = (string, nat)

  /** A simulated system, identified by its unique object name. */
  datatype System = System(name: string)

  type IdCache = seq<map<Id, nat>>
  type IdMap = seq<(nat, Id)>

  /** The per-system caches and the table of numbers are inverse bijections. */
  ghost predicate Interned(cache: IdCache, table: IdMap) {
    && (forall s, id :: 0 <= s < |cache| && id in cache[s] ==>
          1 <= cache[s][id] <= |table| && table[cache[s][id] - 1] == (s + 1, id))
    && (forall k :: 0 <= k < |table| ==> Listed(cache, table, k))
  }

  ghost predicate Listed(cache: IdCache, table: IdMap, k: nat)
    requires k < |table|
  {
    var (sys, id) := table[k];
    1 <= sys <= |cache| && id in cache[sys - 1] && cache[sys - 1][id] == k + 1
  }

  function Inserted(cache: IdCache, sys: nat, id: Id, n: nat): IdCache
    requires 1 <= sys <= |cache|
  {
    var row: map<Id, nat> := cache[sys - 1][id := n];
    cache[sys - 1 := row]
  }

  lemma {:induction false} Intern(cache: IdCache, table: IdMap, sys: nat, id: Id)
    requires Interned(cache, table) && 1 <= sys <= |cache| && id !in cache[sys - 1]
    ensures Interned(Inserted(cache, sys, id, |table| + 1), table + [(sys, id)])
  {
    var cache' := Inserted(cache, sys, id, |table| + 1);
    var table' := table + [(sys, id)];
    forall k | 0 <= k < |table'| ensures Listed(cache', table', k) {
      if k < |table| {
        assert Listed(cache, table, k);
        assert table[k] != (sys, id);
      }
    }
  }

  lemma {:induction false} InternSystem(cache: IdCache, table: IdMap)
    requires Interned(cache, table)
    ensures Interned(cache + [map[]], table)
  {
    var cache' := cache + [map[]];
    forall k | 0 <= k < |table| ensures Listed(cache', table, k) {
      assert Listed(cache, table, k);
    }
  }

  /** A number leads back to its key, and looking that key up finds the number again. */
  lemma {:induction false} LooksUp(cache: IdCache, table: IdMap, n: nat)
    requires Interned(cache, table) && 1 <= n <= |table|
    ensures var (sys, id) := table[n - 1];
      1 <= sys <= |cache| && id in cache[sys - 1] && cache[sys - 1][id] == n
  {
    assert Listed(cache, table, n - 1);
  }

  /** The table of numbers determines the caches. */
  lemma {:induction false} TableDetermines(a: IdCache, b: IdCache, table: IdMap)
    requires Interned(a, table) && Interned(b, table) && |a| == |b|
    ensures a == b
  {
    forall s | 0 <= s < |a| ensures a[s] == b[s] {
      SameRow(a, b, table, s);
      SameRow(b, a, table, s);
    }
  }

  lemma {:induction false} SameRow(a: IdCache, b: IdCache, table: IdMap, s: nat)
    requires Interned(a, table) && Interned(b, table) && |a| == |b| && s < |a|
    ensures forall id :: id in a[s] ==> id in b[s] && b[s][id] == a[s][id]
  {
    forall id | id in a[s] ensures id in b[s] && b[s][id] == a[s][id] {
      LooksUp(b, table, a[s][id]);
    }
  }

  /** A cache numbers its keys 1, 2, ... in the order of `names`. */
  ghost predicate Dense<K(!new)>(cache: map<K, nat>, names: seq<K>) {
    && |cache| == |names|
    && (forall s :: s in cache ==> 1 <= cache[s] <= |names| && names[cache[s] - 1] == s)
    && (forall k :: 0 <= k < |names| ==> names[k] in cache && cache[names[k]] == k + 1)
  }

  lemma {:induction false} DenseAdd<K(!new)>(cache: map<K, nat>, names: seq<K>, s: K)
    requires Dense(cache, names) && s !in cache
    ensures Dense(cache[s := |names| + 1], names + [s])
  {
    var cache', names' := cache[s := |names| + 1], names + [s];
    forall k | 0 <= k < |names'| ensures names'[k] in cache' && cache'[names'[k]] == k + 1 {
      if k < |names| {
        assert names[k] in cache;
      }
    }
  }

  /** The file's key: slot `n` holds the name numbered `n`, and every slot from 1 on is filled. */
  method NamesByNumber(cache: map<string, nat>, n: nat, ghost names: seq<string>) returns (slots: seq<string>)
    requires Dense(cache, names) && n == |cache|
    ensures |slots| == n + 1 && slots[1..] == names
    ensures forall s :: s in cache ==> slots[cache[s]] == s
  {
    slots := seq(n + 1, _ => "");
    var left := cache.Keys;
    while left != {}
      invariant left <= cache.Keys && |slots| == n + 1
      invariant forall s :: s in cache && s !in left ==> slots[cache[s]] == s
      decreases |left|
    {
      var s :| s in left;
      ghost var was := slots;
      slots := slots[cache[s] := s];
      forall t | t in cache && t !in left - {s} ensures slots[cache[t]] == t {
        if t != s {
          assert was[cache[t]] == t;
        }
      }
      left := left - {s};
    }
    forall k | 0 <= k < n ensures slots[1..][k] == names[k] {
      assert names[k] in cache;
    }
  }

  /** The list with `x` in it: a new name goes to the end, so known names keep their numbers. */
  function Known<T(==)>(s: seq<T>, x: T): seq<T> {
    if x in s then s else s + [x]
  }

  lemma {:induction false} DenseUnique<K(!new)>(cache: map<K, nat>, names: seq<K>)
    requires Dense(cache, names)
    ensures Distinct(names) && forall s :: s in cache <==> s in names
  {
    forall i, j | 0 <= i < j < |names| ensures names[i] != names[j] {
      assert cache[names[i]] == i + 1 && cache[names[j]] == j + 1;
    }
    forall s | s in cache ensures s in names {
      assert names[cache[s] - 1] == s;
    }
  }

  lemma {:induction false} InternedUnique(cache: IdCache, table: IdMap)
    requires Interned(cache, table)
    ensures Distinct(table)
    ensures forall sys, id :: 1 <= sys <= |cache| ==> (id in cache[sys - 1] <==> (sys, id) in table)
  {
    forall i, j | 0 <= i < j < |table| ensures table[i] != table[j] {
      assert Listed(cache, table, i) && Listed(cache, table, j);
    }
    forall sys, id | 1 <= sys <= |cache| ensures id in cache[sys - 1] <==> (sys, id) in table {
      if id in cache[sys - 1] {
        assert table[cache[sys - 1][id] - 1] == (sys, id);
      }
      if (sys, id) in table {
        var k :| 0 <= k < |table| && table[k] == (sys, id);
        assert Listed(cache, table, k);
      }
    }
  }

  // ----- The engine's four tables with their counters -----

  /** Ids must stay below this. */
  const ID_LIMIT: nat := 65535

  ghost predicate SmTable(numSys: nat, numSm: nat, cache: IdCache, table: IdMap) {
    numSm == |table| < ID_LIMIT && |cache| == numSys && Interned(cache, table)
  }

  ghost predicate QTable(numSys: nat, numQs: nat, numQ: seq<nat>, cache: IdCache, table: IdMap) {
    && numQs == |table| < ID_LIMIT && |cache| == |numQ| == numSys && Interned(cache, table)
    && forall x :: 0 <= x < numSys ==> numQ[x] == |cache[x]|
  }

  ghost predicate StTable(numSmt: nat, smt: map<string, nat>, names: seq<string>,
                          numSt: seq<nat>, st: seq<map<string, nat>>, states: seq<seq<string>>) {
    && numSmt == |names| == |numSt| == |st| == |states| && Dense(smt, names)
    && forall x :: 0 <= x < numSmt ==> Dense(st[x], states[x]) && numSt[x] == |states[x]|
  }

  ghost predicate SysTable(numSys: nat, names: map<System, nat>, systems: seq<System>) {
    numSys == |systems| && Dense(names, systems)
  }

  lemma {:induction false} Numbered(cache: IdCache, table: IdMap, sys: nat, id: Id)
    requires Interned(cache, table) && 1 <= sys <= |cache| && id in cache[sys - 1]
    ensures 1 <= cache[sys - 1][id] <= |table| && table[cache[sys - 1][id] - 1] == (sys, id)
  {
  }

  lemma {:induction false} SmSystem(numSys: nat, numSm: nat, cache: IdCache, table: IdMap)
    requires SmTable(numSys, numSm, cache, table)
    ensures SmTable(numSys + 1, numSm, cache + [map[]], table)
  {
    hide Interned;
    InternSystem(cache, table);
  }

  lemma {:induction false} SmAdd(numSys: nat, numSm: nat, cache: IdCache, table: IdMap, sys: nat, id: Id)
    requires SmTable(numSys, numSm, cache, table)
    requires 1 <= sys <= numSys && id !in cache[sys - 1] && numSm + 1 < ID_LIMIT
    ensures SmTable(numSys, numSm + 1, Inserted(cache, sys, id, numSm + 1), table + [(sys, id)])
  {
    hide Interned;
    Intern(cache, table, sys, id);
  }

  lemma {:induction false} QSystem(numSys: nat, numQs: nat, numQ: seq<nat>, cache: IdCache, table: IdMap)
    requires QTable(numSys, numQs, numQ, cache, table)
    ensures QTable(numSys + 1, numQs, numQ + [0], cache + [map[]], table)
  {
    hide Interned;
    InternSystem(cache, table);
  }

  lemma {:induction false} QAdd(numSys: nat, numQs: nat, numQ: seq<nat>, cache: IdCache, table: IdMap,
                                sys: nat, id: Id)
    requires QTable(numSys, numQs, numQ, cache, table)
    requires 1 <= sys <= numSys && id !in cache[sys - 1] && numQs + 1 < ID_LIMIT
    ensures QTable(numSys, numQs + 1, numQ[sys - 1 := numQ[sys - 1] + 1],
                   Inserted(cache, sys, id, numQs + 1), table + [(sys, id)])
  {
    hide Interned;
    Intern(cache, table, sys, id);
  }

  lemma {:induction false} StKind(numSmt: nat, smt: map<string, nat>, names: seq<string>,
                                  numSt: seq<nat>, st: seq<map<string, nat>>, states: seq<seq<string>>, sm: string)
    requires StTable(numSmt, smt, names, numSt, st, states) && sm !in smt
    ensures StTable(numSmt + 1, smt[sm := numSmt + 1], names + [sm], numSt + [0], st + [map[]], states + [[]])
  {
    DenseAdd(smt, names, sm);
    var none: map<string, nat>, empty: seq<string> := map[], [];
    assert Dense(none, empty);
    hide Dense;
  }

  function Row(st: seq<map<string, nat>>, smi: nat, s: string, n: nat): seq<map<string, nat>>
    requires 1 <= smi <= |st|
  {
    var row: map<string, nat> := st[smi - 1][s := n];
    st[smi - 1 := row]
  }

  lemma {:induction false} StState(numSmt: nat, smt: map<string, nat>, names: seq<string>,
                                   numSt: seq<nat>, st: seq<map<string, nat>>, states: seq<seq<string>>,
                                   smi: nat, s: string)
    requires StTable(numSmt, smt, names, numSt, st, states) && 1 <= smi <= numSmt && s !in st[smi - 1]
    ensures var n := numSt[smi - 1] + 1;
      StTable(numSmt, smt, names, numSt[smi - 1 := n], Row(st, smi, s, n), states[smi - 1 := states[smi - 1] + [s]])
  {
    hide Dense;
    DenseAdd(st[smi - 1], states[smi - 1], s);
  }

  lemma {:induction false} StNumbered(numSmt: nat, smt: map<string, nat>, names: seq<string>,
                                      numSt: seq<nat>, st: seq<map<string, nat>>, states: seq<seq<string>>, sm: string)
    requires StTable(numSmt, smt, names, numSt, st, states) && sm in smt
    ensures 1 <= smt[sm] <= numSmt && names[smt[sm] - 1] == sm
    ensures forall s {:trigger st[smt[sm] - 1][s]} :: s in st[smt[sm] - 1] ==>
      && 1 <= st[smt[sm] - 1][s] <= |states[smt[sm] - 1]|
      && states[smt[sm] - 1][st[smt[sm] - 1][s] - 1] == s
  {
  }

  lemma {:induction false} SysAdd(numSys: nat, names: map<System, nat>, systems: seq<System>, s: System)
    requires SysTable(numSys, names, systems) && s !in names
    ensures SysTable(numSys + 1, names[s := numSys + 1], systems + [s])
  {
    DenseAdd(names, systems, s);
    hide Dense;
  }

  lemma {:induction false} TableSizes(numSys: nat, numQs: nat, numQ: seq<nat>, cache: IdCache, table: IdMap)
    requires QTable(numSys, numQs, numQ, cache, table)
    ensures |numQ| == |cache| == numSys
  {
  }

  lemma {:induction false} StateSizes(numSmt: nat, smt: map<string, nat>, names: seq<string>,
                                      numSt: seq<nat>, st: seq<map<string, nat>>, states: seq<seq<string>>)
    requires StTable(numSmt, smt, names, numSt, st, states)
    ensures |numSt| == |st| == |states| == |names| == numSmt
  {
  }

  lemma {:induction false} EmptyTables()
    ensures SmTable(0, 0, [], []) && QTable(0, 0, [], [], []) && StTable(0, map[], [], [], [], [])
    ensures SysTable(0, map[], [])
  {
  }
}
