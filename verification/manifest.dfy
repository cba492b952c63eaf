/**
 * The manifest (`package.json`) as a JSON value, and the shallow merge that
 * patches it: `Object.assign(existing, patch)` on an object read from disk, or
 * on `{}` when the file is missing. Objects keep their fields in insertion
 * order, as JavaScript objects do, because that is the order they are written
 * back in.
 */
module Manifest {
  import opened Wrappers

  datatype Json =
    | JNull
    | JBool(b: bool)
    | JNum(n: int)
    | JStr(s: string)
    | JArr(items: seq<Json>)
    | JObj(fields: seq<(string, Json)>)

  /** A JSON object: its fields, in insertion order. */
  type Object = seq<(string, Json)>

  function Keys(o: Object): (ks: seq<string>)
    ensures |ks| == |o|
    ensures forall i :: 0 <= i < |o| ==> ks[i] == o[i].0
  {
    seq(|o|, i requires 0 <= i < |o| => o[i].0)
  }

  lemma KeysCons(field: (string, Json), o: Object)
    ensures Keys([field] + o) == [field.0] + Keys(o)
  {
  }

  predicate Distinct(ks: seq<string>) {
    forall i, j :: 0 <= i < j < |ks| ==> ks[i] != ks[j]
  }

  /** Every JavaScript object has each of its keys once. */
  predicate UniqueKeys(o: Object) {
    Distinct(Keys(o))
  }

  /** The value stored under `k`, if any (`o[k]`). */
  function Lookup(o: Object, k: string): (v: Option<Json>)
    ensures v.Some? <==> k in Keys(o)
  {
    if |o| == 0 then None
    else if o[0].0 == k then
      assert Keys(o)[0] == k;
      Some(o[0].1)
    else
      assert Keys(o[1..]) == Keys(o)[1..];
      Lookup(o[1..], k)
  }

  /** The map view of an object, forgetting field order. */
  function ToMap(o: Object): map<string, Json> {
    map k | k in Keys(o) :: Lookup(o, k).value
  }

  /** The map view holds the keys of the object, each with the value a lookup finds. */
  lemma ToMapAt(o: Object, k: string)
    ensures k in ToMap(o) <==> k in Keys(o)
    ensures k in ToMap(o) ==> Lookup(o, k) == Some(ToMap(o)[k])
  {
  }

  /** The keys of `ks` that are not already `known`, in order. */
  function Fresh(ks: seq<string>, known: seq<string>): (r: seq<string>)
  {
    if |ks| == 0 then []
    else (if ks[0] in known then [] else [ks[0]]) + Fresh(ks[1..], known)
  }

  /**
   * The assignment `o[k] = v`: the value under `k` becomes `v`, every other
   * key keeps its value, an existing key keeps its position and a new key is
   * placed last.
   */
  function Put(o: Object, k: string, v: Json): (r: Object)
    ensures Keys(r) == if k in Keys(o) then Keys(o) else Keys(o) + [k]
  {
    if |o| == 0 then [(k, v)]
    else if o[0].0 == k then
      var r := [(k, v)] + o[1..];
      assert Keys(r) == Keys(o);
      assert Keys(o)[0] == k;
      r
    else
      var rest := Put(o[1..], k, v);
      assert [o[0]] + o[1..] == o;
      KeysAfterConsPut(o[0], o[1..], rest, k);
      [o[0]] + rest
  }

  /** After `o[k] = v`, the key holds the new value and every other key is unchanged. */
  lemma {:induction false} PutLookup(o: Object, k: string, v: Json, k': string)
    ensures Lookup(Put(o, k, v), k') == if k' == k then Some(v) else Lookup(o, k')
    decreases |o|
  {
    if |o| > 0 {
      var head, tail := o[0], o[1..];
      assert o == [head] + tail;
      LookupCons(head, tail);
      if head.0 == k {
        LookupCons((k, v), tail);
      } else {
        PutPastHead(head, tail, k, v);
        PutLookup(tail, k, v, k');
        LookupCons(head, Put(tail, k, v));
      }
    }
  }

  lemma LookupCons(field: (string, Json), o: Object)
    ensures forall k :: Lookup([field] + o, k) == if field.0 == k then Some(field.1) else Lookup(o, k)
  {
    assert ([field] + o)[1..] == o;
  }

  lemma KeysAfterConsPut(field: (string, Json), tail: Object, tailPut: Object, k: string)
    requires field.0 != k
    requires Keys(tailPut) == if k in Keys(tail) then Keys(tail) else Keys(tail) + [k]
    ensures Keys([field] + tailPut)
         == if k in Keys([field] + tail) then Keys([field] + tail) else Keys([field] + tail) + [k]
  {
    KeysCons(field, tailPut);
    KeysCons(field, tail);
    assert k in Keys([field] + tail) <==> k in Keys(tail);
    if k !in Keys(tail) {
      assert [field.0] + (Keys(tail) + [k]) == [field.0] + Keys(tail) + [k];
    }
  }

  /**
   * `Object.assign(target, source)`: the fields of `source` are assigned into
   * `target` one by one, in order.
   */
  function Assign(target: Object, source: Object): Object
    decreases |source|
  {
    if |source| == 0 then target
    else
      Assign(Put(target, source[0].0, source[0].1), source[1..])
  }

  /** Merging objects whose keys are unique gives an object whose keys are unique. */
  lemma {:induction false} AssignUnique(target: Object, source: Object)
    requires UniqueKeys(target) && UniqueKeys(source)
    ensures UniqueKeys(Assign(target, source))
    decreases |source|
  {
    if |source| > 0 {
      UniqueTail(source);
      PutUnique(target, source[0].0, source[0].1);
      AssignUnique(Put(target, source[0].0, source[0].1), source[1..]);
    }
  }

  lemma PutUnique(o: Object, k: string, v: Json)
    ensures UniqueKeys(o) ==> UniqueKeys(Put(o, k, v))
  {
    if UniqueKeys(o) && k !in Keys(o) {
      var ks := Keys(o) + [k];
      forall i, j | 0 <= i < j < |ks|
        ensures ks[i] != ks[j]
      {
        if j == |ks| - 1 {
          assert ks[i] == Keys(o)[i];
        }
      }
    }
  }

  /** The manifest patch: a missing file reads as the empty object `{}`. */
  function Patch(existing: Option<Object>, patch: Object): (r: Object)
  {
    Assign(existing.GetOr([]), patch)
  }

  lemma {:induction false} FreshMembers(ks: seq<string>, known: seq<string>)
    ensures forall x :: x in Fresh(ks, known) <==> x in ks && x !in known
  {
    if |ks| > 0 {
      FreshMembers(ks[1..], known);
      assert ks == [ks[0]] + ks[1..];
    }
  }

  lemma {:induction false} FreshIgnoresAbsent(ks: seq<string>, known: seq<string>, k: string)
    requires k !in ks
    ensures Fresh(ks, known + [k]) == Fresh(ks, known)
  {
    if |ks| > 0 {
      FreshIgnoresAbsent(ks[1..], known, k);
    }
  }

  /**
   * Last writer wins: every key of the patch ends up with the patch's value,
   * whatever the target held there (nested objects included, wholesale), and
   * every other key keeps the target's value.
   */
  lemma {:induction false} AssignLookup(target: Object, source: Object, k: string)
    requires UniqueKeys(source)
    ensures Lookup(Assign(target, source), k) ==
      if k in Keys(source) then Lookup(source, k) else Lookup(target, k)
    decreases |source|
  {
    if |source| > 0 {
      var k0 := source[0].0;
      assert Keys(source[1..]) == Keys(source)[1..];
      AssignLookup(Put(target, k0, source[0].1), source[1..], k);
      PutLookup(target, k0, source[0].1, k);
      if k == k0 {
        assert k !in Keys(source[1..]);
      }
    }
  }

  /** Splitting the first field off an object with unique keys. */
  lemma UniqueTail(o: Object)
    requires UniqueKeys(o) && |o| > 0
    ensures Keys(o[1..]) == Keys(o)[1..]
    ensures UniqueKeys(o[1..])
    ensures o[0].0 !in Keys(o[1..])
  {
    assert Keys(o[1..]) == Keys(o)[1..];
    forall j | 0 <= j < |o| - 1
      ensures Keys(o[1..])[j] != o[0].0
    {
      assert Keys(o)[0] != Keys(o)[j + 1];
    }
  }

  /**
   * Field order after the merge: the target's keys stay where they were and
   * the patch's new keys follow, in the patch's order.
   */
  lemma {:induction false} AssignKeys(target: Object, source: Object)
    requires UniqueKeys(source)
    ensures Keys(Assign(target, source)) == Keys(target) + Fresh(Keys(source), Keys(target))
    decreases |source|
  {
    if |source| > 0 {
      var k0, rest := source[0].0, source[1..];
      var t' := Put(target, k0, source[0].1);
      var kt := Keys(target);
      UniqueTail(source);
      AssignKeys(t', rest);
      var restFresh := Fresh(Keys(rest), kt);
      assert Fresh(Keys(rest), Keys(t')) == restFresh by {
        if k0 !in kt {
          FreshIgnoresAbsent(Keys(rest), kt, k0);
        }
      }
      assert Fresh(Keys(source), kt) == (if k0 in kt then [] else [k0]) + restFresh by {
        assert Keys(source)[0] == k0;
      }
      AppendFresh(kt, k0, restFresh);
    }
  }

  lemma AppendFresh(kt: seq<string>, k0: string, restFresh: seq<string>)
    ensures (if k0 in kt then kt else kt + [k0]) + restFresh
         == kt + ((if k0 in kt then [] else [k0]) + restFresh)
  {
  }

  /** The keys of the merged object are the keys of either side. */
  lemma AssignKeySet(target: Object, source: Object)
    requires UniqueKeys(source)
    ensures ToMap(Assign(target, source)).Keys == ToMap(target).Keys + ToMap(source).Keys
  {
    AssignKeys(target, source);
    FreshMembers(Keys(source), Keys(target));
    var ks := Keys(Assign(target, source));
    assert forall k :: k in ks <==> k in Keys(target) || k in Keys(source);
  }

  /** An object whose lookups are those of `s` over those of `t` has the map union as its map view. */
  lemma MapUnionByLookup(a: Object, t: Object, s: Object)
    requires forall k :: Lookup(a, k) == if k in Keys(s) then Lookup(s, k) else Lookup(t, k)
    ensures ToMap(a) == ToMap(t) + ToMap(s)
  {
    var r, u := ToMap(a), ToMap(t) + ToMap(s);
    forall k
      ensures k in r <==> k in u
      ensures k in r ==> r[k] == u[k]
    {
      MapUnionAt(a, t, s, k);
    }
    MapExtensional(r, u);
  }

  lemma MapExtensional(r: map<string, Json>, u: map<string, Json>)
    requires forall k :: k in r <==> k in u
    requires forall k :: k in r ==> r[k] == u[k]
    ensures r == u
  {
  }

  lemma MapUnionAt(a: Object, t: Object, s: Object, k: string)
    requires Lookup(a, k) == if k in Keys(s) then Lookup(s, k) else Lookup(t, k)
    ensures k in ToMap(a) <==> k in ToMap(t) + ToMap(s)
    ensures k in ToMap(a) ==> ToMap(a)[k] == (ToMap(t) + ToMap(s))[k]
  {
    var r, mt, ms := ToMap(a), ToMap(t), ToMap(s);
    var v := Lookup(a, k);
    ToMapAt(a, k);
    ToMapAt(t, k);
    ToMapAt(s, k);
    if k in Keys(s) {
      assert v == Lookup(s, k) && k in ms;
      assert Some(r[k]) == v == Some(ms[k]);
    } else if k in Keys(t) {
      assert k !in ms && k in mt;
      assert Some(r[k]) == v == Some(mt[k]);
    }
  }

  /** The map-level statement of the merge: a right-biased map union. */
  lemma AssignIsMapUnion(target: Object, source: Object)
    requires UniqueKeys(source)
    ensures ToMap(Assign(target, source)) == ToMap(target) + ToMap(source)
  {
    var a := Assign(target, source);
    forall k
      ensures Lookup(a, k) == if k in Keys(source) then Lookup(source, k) else Lookup(target, k)
    {
      AssignLookup(target, source, k);
    }
    MapUnionByLookup(a, target, source);
  }

  /** Assigning a value the object already holds changes nothing. */
  lemma {:induction false} PutPresent(o: Object, k: string, v: Json)
    requires Lookup(o, k) == Some(v)
    ensures Put(o, k, v) == o
  {
    if |o| > 0 && o[0].0 != k {
      PutPresent(o[1..], k, v);
    }
  }

  /** In an object with unique keys, each field is what a lookup of its key finds. */
  lemma {:induction false} LookupField(o: Object, i: int)
    requires UniqueKeys(o) && 0 <= i < |o|
    ensures Lookup(o, o[i].0) == Some(o[i].1)
  {
    if i > 0 {
      assert Keys(o[1..]) == Keys(o)[1..];
      assert o[0].0 != o[i].0 by { assert Keys(o)[0] != Keys(o)[i]; }
      LookupField(o[1..], i - 1);
    }
  }

  lemma {:induction false} AssignAlreadyApplied(o: Object, source: Object)
    requires UniqueKeys(source)
    requires forall i :: 0 <= i < |source| ==> Lookup(o, source[i].0) == Some(source[i].1)
    ensures Assign(o, source) == o
    decreases |source|
  {
    if |source| > 0 {
      PutPresent(o, source[0].0, source[0].1);
      assert Keys(source[1..]) == Keys(source)[1..];
      AssignAlreadyApplied(o, source[1..]);
    }
  }

  /** Patching twice with the same object gives the same manifest as patching once. */
  lemma AssignIdempotent(target: Object, source: Object)
    requires UniqueKeys(source)
    ensures Assign(Assign(target, source), source) == Assign(target, source)
  {
    var r := Assign(target, source);
    forall i | 0 <= i < |source|
      ensures Lookup(r, source[i].0) == Some(source[i].1)
    {
      AssignLookup(target, source, source[i].0);
      LookupField(source, i);
    }
    AssignAlreadyApplied(r, source);
  }

  lemma PutPastHead(field: (string, Json), tail: Object, k: string, v: Json)
    requires field.0 != k
    ensures Put([field] + tail, k, v) == [field] + Put(tail, k, v)
  {
    assert ([field] + tail)[1..] == tail;
  }

  lemma {:induction false} PutAppends(o: Object, k: string, v: Json)
    requires k !in Keys(o)
    ensures Put(o, k, v) == o + [(k, v)]
  {
    if |o| > 0 {
      var head, tail := o[0], o[1..];
      assert o == [head] + tail;
      KeysCons(head, tail);
      PutPastHead(head, tail, k, v);
      PutAppends(tail, k, v);
      ConsAppend(head, tail, (k, v));
    }
  }

  lemma ConsAppend<T>(x: T, s: seq<T>, y: T)
    ensures [x] + (s + [y]) == ([x] + s) + [y]
  {
  }

  predicate Disjoint(a: seq<string>, b: seq<string>) {
    forall k :: k in a ==> k !in b
  }

  lemma DisjointTail(ks: seq<string>, kt: seq<string>)
    requires |ks| > 0 && ks[0] !in ks[1..] && Disjoint(ks, kt)
    ensures Disjoint(ks[1..], kt + [ks[0]])
  {
    forall k | k in ks[1..]
      ensures k !in kt + [ks[0]]
    {
      assert k in ks;
    }
  }

  lemma {:induction false} AssignFreshKeys(target: Object, source: Object)
    requires UniqueKeys(source)
    requires Disjoint(Keys(source), Keys(target))
    ensures Assign(target, source) == target + source
    decreases |source|
  {
    if |source| > 0 {
      var head, rest := source[0], source[1..];
      var ks := Keys(source);
      UniqueTail(source);
      assert ks[0] == head.0 && head.0 in ks;
      PutAppends(target, head.0, head.1);
      var t' := target + [head];
      AssignStep(target, source);
      KeysSnoc(target, head);
      DisjointTail(ks, Keys(target));
      AssignFreshKeys(t', rest);
      SnocThenRest(target, source);
    }
  }

  /** One step of the merge: the first field is assigned, then the rest. */
  lemma AssignStep(target: Object, source: Object)
    requires |source| > 0
    ensures Assign(target, source) == Assign(Put(target, source[0].0, source[0].1), source[1..])
  {
  }

  lemma KeysSnoc(o: Object, field: (string, Json))
    ensures Keys(o + [field]) == Keys(o) + [field.0]
  {
  }

  lemma SnocThenRest(target: Object, source: Object)
    requires |source| > 0
    ensures (target + [source[0]]) + source[1..] == target + source
  {
    assert source == [source[0]] + source[1..];
  }

  /** When the manifest file is missing, the patched manifest is exactly the patch. */
  lemma PatchMissingFile(patch: Object)
    requires UniqueKeys(patch)
    ensures Patch(None, patch) == patch
  {
    assert Keys([]) == [];
    AssignFreshKeys([], patch);
    assert [] + patch == patch;
  }

  /** The value reached by following `path` through nested objects. */
  function At(o: Object, path: seq<string>): Option<Json>
    requires |path| > 0
    decreases |path|
  {
    match Lookup(o, path[0])
    case None => None
    case Some(v) =>
      if |path| == 1 then Some(v)
      else if v.JObj? then At(v.fields, path[1..])
      else None
  }

  /** The scopes the commit-message linter accepts, as the JSON array the rule holds. */
  const ScopeEnum: Json := JArr([
    JStr("config"), JStr("deps"), JStr("info"), JStr("module"),
    JStr("package"), JStr("release"), JStr("script"), JStr("utility")
  ])

  const CommitizenPath: string := "./node_modules/cz-conventional-changelog"

  /** The `scripts` block the patch installs. */
  const Scripts: Object := [
    ("commit", JStr("git-cz")),
    ("commitmsg", JStr("commitlint -e")),
    ("release", JStr("standard-version"))
  ]

  /** The `config` block the patch installs, for the chosen lint-config package. */
  function Config(lintConfig: string): Object {
    [ ("commitizen", JObj([("path", JStr(CommitizenPath))])),
      ("commitLint", JObj([
        ("extends", JArr([JStr(lintConfig)])),
        ("rules", JObj([
          ("scope-enum", JArr([JNum(2), JStr("always"), ScopeEnum]))
        ]))
      ]))
    ]
  }

  /** The object merged into the manifest: a `config` block and a `scripts` block. */
  function CommitizenPatch(lintConfig: string): (p: Object)
    ensures UniqueKeys(p)
    ensures Keys(p) == ["config", "scripts"]
  {
    [("config", JObj(Config(lintConfig))), ("scripts", JObj(Scripts))]
  }

  /** Any manifest whose `scripts` block is the patch's holds exactly the three scripts. */
  lemma ScriptsIn(m: Object)
    requires Lookup(m, "scripts") == Some(JObj(Scripts))
    ensures At(m, ["scripts", "commit"]) == Some(JStr("git-cz"))
    ensures At(m, ["scripts", "commitmsg"]) == Some(JStr("commitlint -e"))
    ensures At(m, ["scripts", "release"]) == Some(JStr("standard-version"))
    ensures forall k :: k !in Keys(Scripts) ==> At(m, ["scripts", k]) == None
  {
    forall k | k !in Keys(Scripts)
      ensures At(m, ["scripts", k]) == None
    {
      AtNested(m, Scripts, ["scripts", k]);
      assert ["scripts", k][1..] == [k];
    }
    AtNested(m, Scripts, ["scripts", "commit"]);
    assert ["scripts", "commit"][1..] == ["commit"];
    AtNested(m, Scripts, ["scripts", "commitmsg"]);
    assert ["scripts", "commitmsg"][1..] == ["commitmsg"];
    AtNested(m, Scripts, ["scripts", "release"]);
    assert ["scripts", "release"][1..] == ["release"];
  }

  /**
   * The patched manifest's `scripts` block is exactly the commit, commitmsg
   * and release scripts: earlier scripts are discarded, not merged.
   */
  lemma PatchSetsScripts(existing: Option<Object>, lintConfig: string)
    ensures var m := Patch(existing, CommitizenPatch(lintConfig));
      && At(m, ["scripts", "commit"]) == Some(JStr("git-cz"))
      && At(m, ["scripts", "commitmsg"]) == Some(JStr("commitlint -e"))
      && At(m, ["scripts", "release"]) == Some(JStr("standard-version"))
      && (forall k :: k !in Keys(Scripts) ==> At(m, ["scripts", k]) == None)
  {
    PatchTopLevel(existing, lintConfig);
    ScriptsIn(Patch(existing, CommitizenPatch(lintConfig)));
  }

  /** Following a path through a key whose value is an object. */
  lemma AtNested(o: Object, fields: Object, path: seq<string>)
    requires |path| > 1 && Lookup(o, path[0]) == Some(JObj(fields))
    ensures At(o, path) == At(fields, path[1..])
  {
  }

  lemma ConfigContents(lintConfig: string)
    ensures At(Config(lintConfig), ["commitizen", "path"]) == Some(JStr(CommitizenPath))
    ensures At(Config(lintConfig), ["commitLint", "extends"]) == Some(JArr([JStr(lintConfig)]))
  {
    var config := Config(lintConfig);
    var commitizen: Object := [("path", JStr(CommitizenPath))];
    assert Lookup(config, "commitizen") == Some(JObj(commitizen));
    AtNested(config, commitizen, ["commitizen", "path"]);
    assert ["commitizen", "path"][1..] == ["path"];
    var commitLint := config[1].1.fields;
    assert Lookup(config[1..], "commitLint") == Some(JObj(commitLint));
    AtNested(config, commitLint, ["commitLint", "extends"]);
    assert ["commitLint", "extends"][1..] == ["extends"];
    assert Lookup(commitLint, "extends") == Some(JArr([JStr(lintConfig)]));
  }

  /** The patch's two blocks replace whatever the manifest held under their keys. */
  lemma PatchTopLevel(existing: Option<Object>, lintConfig: string)
    ensures Lookup(Patch(existing, CommitizenPatch(lintConfig)), "config") == Some(JObj(Config(lintConfig)))
    ensures Lookup(Patch(existing, CommitizenPatch(lintConfig)), "scripts") == Some(JObj(Scripts))
  {
    AssignLookup(existing.GetOr([]), CommitizenPatch(lintConfig), "config");
    AssignLookup(existing.GetOr([]), CommitizenPatch(lintConfig), "scripts");
  }

  /** Any manifest whose `config` block is the patch's names the commitizen adapter. */
  lemma CommitizenPathIn(m: Object, lintConfig: string)
    requires Lookup(m, "config") == Some(JObj(Config(lintConfig)))
    ensures At(m, ["config", "commitizen", "path"]) == Some(JStr(CommitizenPath))
  {
    ConfigContents(lintConfig);
    AtNested(m, Config(lintConfig), ["config", "commitizen", "path"]);
    assert ["config", "commitizen", "path"][1..] == ["commitizen", "path"];
  }

  /** Any manifest whose `config` block is the patch's extends the lint-config package. */
  lemma LintConfigIn(m: Object, lintConfig: string)
    requires Lookup(m, "config") == Some(JObj(Config(lintConfig)))
    ensures At(m, ["config", "commitLint", "extends"]) == Some(JArr([JStr(lintConfig)]))
  {
    ConfigContents(lintConfig);
    AtNested(m, Config(lintConfig), ["config", "commitLint", "extends"]);
    assert ["config", "commitLint", "extends"][1..] == ["commitLint", "extends"];
  }

  /**
   * The patched manifest points commitizen at the conventional-changelog
   * adapter and extends the chosen lint-config package.
   */
  lemma PatchSetsConfig(existing: Option<Object>, lintConfig: string)
    ensures At(Patch(existing, CommitizenPatch(lintConfig)), ["config", "commitizen", "path"])
         == Some(JStr(CommitizenPath))
    ensures At(Patch(existing, CommitizenPatch(lintConfig)), ["config", "commitLint", "extends"])
         == Some(JArr([JStr(lintConfig)]))
  {
    PatchTopLevel(existing, lintConfig);
    CommitizenPathIn(Patch(existing, CommitizenPatch(lintConfig)), lintConfig);
    LintConfigIn(Patch(existing, CommitizenPatch(lintConfig)), lintConfig);
  }

  /** Top-level keys other than `config` and `scripts` keep their values. */
  lemma PatchKeepsOtherKeys(existing: Option<Object>, lintConfig: string, k: string)
    requires k != "config" && k != "scripts"
    ensures Lookup(Patch(existing, CommitizenPatch(lintConfig)), k) == Lookup(existing.GetOr([]), k)
  {
    AssignLookup(existing.GetOr([]), CommitizenPatch(lintConfig), k);
  }
}
