/** The template-variable table of `buildPath` (main.py:679-728): the values it
    holds, the recursive flattening `add_nested_fields` (main.py:705-720) and the
    fill of placeholders the table lacks (main.py:723-728). */
module Variables {
  import opened Text
  import opened Json
  import opened Tags

  /** A table value: text, or the list of normalised tags stored under "tags". */
  datatype VarValue = Text(s: string) | TagList(tags: seq<Tag>)

  type Table = map<string, VarValue>

  /** What the flattening stores for a value that is not a mapping: `str()` of a
      scalar, `json.dumps` of a list, `""` for `None`. */
  function LeafText(env: Env, v: Json): string {
    match v
    case JNull => ""
    case JList(_) => env.dumps(v)
    case _ => PyStr(env, v)
  }

  /** The key a value is stored under: `f"{prefix}_{key}"`, or `key` when the
      prefix is empty. */
  function FullKey(prefix: string, key: string): string {
    if prefix == "" then key else prefix + "_" + key
  }

  lemma HeadSmaller(source: seq<Field>)
    requires source != []
    ensures SizeFields(source[1..]) < SizeFields(source)
    ensures source[0].val.JObj? ==> SizeFields(source[0].val.fields) < SizeFields(source)
  {
    assert Size(source[0].val) < SizeFields(source);
  }

  /** `add_nested_fields(source, prefix)` applied to `vars`, as written: the
      "do not overwrite" test looks at the entry's own key, not at the key the
      value is stored under. */
  function AddNested(env: Env, vars: Table, source: seq<Field>, prefix: string): Table
    decreases SizeFields(source)
  {
    if source == [] then vars
    else
      HeadSmaller(source);
      var key, value := source[0].key, source[0].val;
      var full := FullKey(prefix, key);
      var next :=
        if value.JObj? then AddNested(env, vars, value.fields, full)
        else if key in vars then vars
        else vars[full := Text(LeafText(env, value))];
      AddNested(env, next, source[1..], prefix)
  }

  lemma {:induction false} FieldSmaller(source: seq<Field>, i: nat)
    requires i < |source|
    ensures Size(source[i].val) < SizeFields(source)
    decreases |source|
  {
    if i > 0 {
      FieldSmaller(source[1..], i - 1);
      assert source[1..][i - 1] == source[i];
    }
  }

  /** `add_nested_fields`: the loop over the entries that recurses into nested
      mappings and writes into the table. */
  method AddNestedFields(env: Env, vars: Table, source: seq<Field>, prefix: string) returns (out: Table)
    ensures out == AddNested(env, vars, source, prefix)
    decreases SizeFields(source)
  {
    out := vars;
    assert source[0..] == source;
    for i := 0 to |source|
      invariant AddNested(env, out, source[i..], prefix) == AddNested(env, vars, source, prefix)
    {
      assert source[i..][0] == source[i] && source[i..][1..] == source[i + 1..];
      var key, value := source[i].key, source[i].val;
      var fullKey := if prefix != "" then prefix + "_" + key else key;
      if value.JObj? {
        FieldSmaller(source, i);
        out := AddNestedFields(env, out, value.fields, fullKey);
      } else if key !in out {
        out := out[fullKey := Text(LeafText(env, value))];
      }
    }
  }

  // ---------------------------------------------------------------------------
  // Reference definition: the flattening as a list of leaves applied in order

  /** A non-mapping value met by the walk, with the prefix it was met under. */
  datatype Leaf = Leaf(prefix: string, key: string, value: Json)

  /** The non-mapping values of `source`, depth first, in entry order. */
  function Leaves(source: seq<Field>, prefix: string): seq<Leaf>
    decreases SizeFields(source)
  {
    if source == [] then []
    else
      HeadSmaller(source);
      var f := source[0];
      (if f.val.JObj? then Leaves(f.val.fields, FullKey(prefix, f.key)) else [Leaf(prefix, f.key, f.val)])
        + Leaves(source[1..], prefix)
  }

  /** Store one leaf unless its own key is already in the table. */
  function Store(env: Env, vars: Table, l: Leaf): Table {
    if l.key in vars then vars else vars[FullKey(l.prefix, l.key) := Text(LeafText(env, l.value))]
  }

  function Apply(env: Env, vars: Table, leaves: seq<Leaf>): Table
    decreases |leaves|
  {
    if leaves == [] then vars else Apply(env, Store(env, vars, leaves[0]), leaves[1..])
  }

  lemma {:induction false} ApplyConcat(env: Env, vars: Table, a: seq<Leaf>, b: seq<Leaf>)
    ensures Apply(env, vars, a + b) == Apply(env, Apply(env, vars, a), b)
    decreases |a|
  {
    if a == [] {
      assert a + b == b;
    } else {
      assert (a + b)[0] == a[0] && (a + b)[1..] == a[1..] + b;
      ApplyConcat(env, Store(env, vars, a[0]), a[1..], b);
    }
  }

  /** The flattening is the in-order application of the leaves. */
  lemma {:induction false} AddNestedIsApply(env: Env, vars: Table, source: seq<Field>, prefix: string)
    ensures AddNested(env, vars, source, prefix) == Apply(env, vars, Leaves(source, prefix))
    decreases SizeFields(source)
  {
    if source != [] {
      HeadSmaller(source);
      var f := source[0];
      var full := FullKey(prefix, f.key);
      var rest := Leaves(source[1..], prefix);
      if f.val.JObj? {
        AddNestedIsApply(env, vars, f.val.fields, full);
        var v1 := AddNested(env, vars, f.val.fields, full);
        AddNestedIsApply(env, v1, source[1..], prefix);
        ApplyConcat(env, vars, Leaves(f.val.fields, full), rest);
      } else {
        var v1 := Store(env, vars, Leaf(prefix, f.key, f.val));
        AddNestedIsApply(env, v1, source[1..], prefix);
        assert ([Leaf(prefix, f.key, f.val)] + rest)[1..] == rest;
      }
    }
  }

  /** Leaves are never mappings, and below a non-empty prefix every leaf is
      stored under that prefix followed by `_`. */
  lemma {:induction false} LeavesUnderPrefix(source: seq<Field>, prefix: string)
    ensures forall k :: 0 <= k < |Leaves(source, prefix)| ==>
      !Leaves(source, prefix)[k].value.JObj? &&
      (prefix != "" ==> (Leaves(source, prefix)[k].prefix == prefix ||
                         StartsWith(Leaves(source, prefix)[k].prefix, prefix + "_")))
    decreases SizeFields(source)
  {
    if source != [] {
      HeadSmaller(source);
      var f := source[0];
      var full := FullKey(prefix, f.key);
      LeavesUnderPrefix(source[1..], prefix);
      if f.val.JObj? {
        LeavesUnderPrefix(f.val.fields, full);
        var inner := Leaves(f.val.fields, full);
        forall k | 0 <= k < |inner| && prefix != ""
          ensures StartsWith(inner[k].prefix, prefix + "_")
        {
          assert full == prefix + "_" + f.key;
          assert StartsWith(full, prefix + "_");
          if inner[k].prefix != full {
            assert StartsWith(inner[k].prefix, full + "_");
            assert inner[k].prefix[..|prefix + "_"|] == full[..|prefix + "_"|];
          }
        }
      }
    }
  }

  /** Nested mappings are descended with underscore-joined keys: under a
      non-empty prefix, every stored key starts with the prefix and `_`. */
  lemma StoredKeysUnderPrefix(source: seq<Field>, prefix: string)
    requires prefix != ""
    ensures forall k :: 0 <= k < |Leaves(source, prefix)| ==>
      StartsWith(FullKey(Leaves(source, prefix)[k].prefix, Leaves(source, prefix)[k].key), prefix + "_")
  {
    LeavesUnderPrefix(source, prefix);
    var ls := Leaves(source, prefix);
    forall k | 0 <= k < |ls|
      ensures StartsWith(FullKey(ls[k].prefix, ls[k].key), prefix + "_")
    {
      var p := ls[k].prefix;
      assert FullKey(p, ls[k].key) == p + "_" + ls[k].key;
      if p == prefix {
        assert (p + "_" + ls[k].key)[..|prefix + "_"|] == prefix + "_";
      } else {
        assert (p + "_" + ls[k].key)[..|prefix + "_"|] == p[..|prefix + "_"|];
      }
    }
  }

  /** What the application of leaves does to the table: no key disappears, and a
      key that is new or has a new value was written by a leaf whose own key was
      not in the table before, with that leaf's text. */
  lemma {:induction false} ApplyEffect(env: Env, vars: Table, leaves: seq<Leaf>)
    ensures vars.Keys <= Apply(env, vars, leaves).Keys
    ensures forall k :: k in Apply(env, vars, leaves) && (k !in vars || Apply(env, vars, leaves)[k] != vars[k]) ==>
      exists j :: 0 <= j < |leaves| && FullKey(leaves[j].prefix, leaves[j].key) == k && leaves[j].key !in vars &&
        Apply(env, vars, leaves)[k] == Text(LeafText(env, leaves[j].value))
    decreases |leaves|
  {
    if leaves != [] {
      var l := leaves[0];
      var v1 := Store(env, vars, l);
      var r := Apply(env, vars, leaves);
      ApplyEffect(env, v1, leaves[1..]);
      forall k | k in r && (k !in vars || r[k] != vars[k])
        ensures exists j :: (0 <= j < |leaves| && FullKey(leaves[j].prefix, leaves[j].key) == k && leaves[j].key !in vars &&
          r[k] == Text(LeafText(env, leaves[j].value)))
      {
        if k !in v1 || r[k] != v1[k] {
          var j :| 0 <= j < |leaves[1..]| && FullKey(leaves[1..][j].prefix, leaves[1..][j].key) == k &&
            leaves[1..][j].key !in v1 && r[k] == Text(LeafText(env, leaves[1..][j].value));
          assert leaves[1..][j] == leaves[j + 1];
        } else {
          assert FullKey(leaves[0].prefix, leaves[0].key) == k && leaves[0].key !in vars;
        }
      }
    }
  }

  /** A key stays as it is when every leaf that would be stored under it has an
      own key already in the table. */
  lemma {:induction false} ApplyKeeps(env: Env, vars: Table, leaves: seq<Leaf>, k: string)
    requires k in vars
    requires forall j :: 0 <= j < |leaves| && FullKey(leaves[j].prefix, leaves[j].key) == k ==> leaves[j].key in vars
    ensures k in Apply(env, vars, leaves) && Apply(env, vars, leaves)[k] == vars[k]
    decreases |leaves|
  {
    if leaves != [] {
      var v1 := Store(env, vars, leaves[0]);
      assert vars.Keys <= v1.Keys && v1[k] == vars[k];
      forall j | 0 <= j < |leaves[1..]| && FullKey(leaves[1..][j].prefix, leaves[1..][j].key) == k
        ensures leaves[1..][j].key in v1
      {
        assert leaves[1..][j] == leaves[j + 1];
      }
      ApplyKeeps(env, v1, leaves[1..], k);
    }
  }

  /** Every leaf's storage key is its own key, or ends with `_` and its own key. */
  lemma SplitOfFullKey(prefix: string, key: string)
    ensures FullKey(prefix, key) == key ||
      (|prefix| > 0 && FullKey(prefix, key)[|prefix|] == '_' && FullKey(prefix, key)[|prefix| + 1..] == key)
  {
    if prefix != "" {
      assert (prefix + "_" + key)[|prefix| + 1..] == key;
    }
  }

  /** The flattening leaves a key of the table untouched when, for every `_` in
      it past the first character, the text after that `_` is already a key: a
      value could only be stored under it by an entry with such an own key,
      and that entry is skipped. */
  lemma KeptWhenEverySuffixKnown(env: Env, vars: Table, source: seq<Field>, prefix: string, k: string)
    requires k in vars
    requires forall i :: 0 < i < |k| && k[i] == '_' ==> k[i + 1..] in vars
    ensures k in AddNested(env, vars, source, prefix) && AddNested(env, vars, source, prefix)[k] == vars[k]
  {
    AddNestedIsApply(env, vars, source, prefix);
    var ls := Leaves(source, prefix);
    forall j | 0 <= j < |ls| && FullKey(ls[j].prefix, ls[j].key) == k
      ensures ls[j].key in vars
    {
      SplitOfFullKey(ls[j].prefix, ls[j].key);
    }
    ApplyKeeps(env, vars, ls, k);
  }

  /** In particular a key without `_` is never overwritten. */
  lemma UnderscoreFreeKeysKept(env: Env, vars: Table, source: seq<Field>, prefix: string, k: string)
    requires k in vars && '_' !in k
    ensures k in AddNested(env, vars, source, prefix) && AddNested(env, vars, source, prefix)[k] == vars[k]
  {
    assert forall i :: 0 < i < |k| ==> k[i] != '_' by {
      forall i | 0 < i < |k|
        ensures k[i] != '_'
      {
        assert k[i] in k;
      }
    }
    KeptWhenEverySuffixKnown(env, vars, source, prefix, k);
  }

  /** What the flattening adds: keys only grow, and every new or changed entry
      comes from a non-mapping value, under its storage key, as `LeafText` of
      that value; the value's own key was not in the table beforehand. */
  lemma AddNestedEffect(env: Env, vars: Table, source: seq<Field>, prefix: string)
    ensures vars.Keys <= AddNested(env, vars, source, prefix).Keys
    ensures var r := AddNested(env, vars, source, prefix);
      forall k :: k in r && (k !in vars || r[k] != vars[k]) ==>
        exists j :: 0 <= j < |Leaves(source, prefix)| &&
          var l := Leaves(source, prefix)[j];
          FullKey(l.prefix, l.key) == k && l.key !in vars && !l.value.JObj? && r[k] == Text(LeafText(env, l.value))
  {
    AddNestedIsApply(env, vars, source, prefix);
    ApplyEffect(env, vars, Leaves(source, prefix));
    LeavesUnderPrefix(source, prefix);
  }

  /** The skip test looks at the entry's own key: `{"tags": {"str": "x"}}`
      replaces an existing `tags_str`. */
  lemma NestedEntryOverwritesExplicitKey(env: Env)
    ensures var vars := map["tags" := TagList([]), "tags_str" := Text("a")];
      AddNested(env, vars, [Field("tags", JObj([Field("str", JStr("x"))]))], "")["tags_str"] == Text("x")
  {
    var vars := map["tags" := TagList([]), "tags_str" := Text("a")];
    var inner := [Field("str", JStr("x"))];
    var outer := [Field("tags", JObj(inner))];
    assert FullKey("tags", "str") == "tags_str";
    assert "str" !in vars;
    assert inner[1..] == [] && outer[1..] == [];
    var written := vars["tags_str" := Text(LeafText(env, JStr("x")))];
    assert AddNested(env, vars, inner, "tags") == AddNested(env, written, [], "tags");
    assert AddNested(env, vars, outer, "") == AddNested(env, AddNested(env, vars, inner, "tags"), [], "");
  }

  // ---------------------------------------------------------------------------
  // Missing placeholders

  /** Length of the run of `\w` characters (ASCII) in `s` starting at `i`. */
  function WordRun(s: string, i: nat): (n: nat)
    requires i <= |s|
    ensures i + n <= |s| && (forall k :: i <= k < i + n ==> IsWordChar(s[k]))
    ensures i + n < |s| ==> !IsWordChar(s[i + n])
    decreases |s| - i
  {
    if i < |s| && IsWordChar(s[i]) then 1 + WordRun(s, i + 1) else 0
  }

  /** A placeholder `{name}` with a non-empty `\w+` name starts at `k`. */
  predicate PlaceholderAt(s: string, k: nat) {
    k < |s| && s[k] == '{' && WordRun(s, k + 1) > 0 && k + 1 + WordRun(s, k + 1) < |s| &&
    s[k + 1 + WordRun(s, k + 1)] == '}'
  }

  function NameAt(s: string, k: nat): string
    requires PlaceholderAt(s, k)
  {
    s[k + 1..k + 1 + WordRun(s, k + 1)]
  }

  /** `set(re.findall(r"{(\w+)}", s))`. Matches cannot overlap (a match holds no
      `{` after its first character), so scanning for a match at every position
      finds the same names. */
  function PlaceholderNames(s: string): set<string>
    decreases |s|
  {
    if s == [] then {}
    else
      var rest := PlaceholderNames(s[1..]);
      if PlaceholderAt(s, 0) then {NameAt(s, 0)} + rest else rest
  }

  lemma {:induction false} WordRunShift(s: string, i: nat)
    requires 1 <= i <= |s|
    ensures WordRun(s[1..], i - 1) == WordRun(s, i)
    decreases |s| - i
  {
    if i < |s| && IsWordChar(s[i]) {
      assert s[1..][i - 1] == s[i];
      WordRunShift(s, i + 1);
    } else if i < |s| {
      assert s[1..][i - 1] == s[i];
    }
  }

  /** Placeholders of `s` past its first character are those of `s[1..]`,
      one position earlier. */
  lemma PlaceholderShift(s: string, k: nat)
    requires 1 <= k < |s|
    ensures PlaceholderAt(s, k) <==> PlaceholderAt(s[1..], k - 1)
    ensures PlaceholderAt(s, k) ==> NameAt(s, k) == NameAt(s[1..], k - 1)
  {
    WordRunShift(s, k + 1);
    assert s[1..][k - 1] == s[k];
    var n := WordRun(s, k + 1);
    if k + 1 + n < |s| {
      assert s[1..][k + n] == s[k + 1 + n];
    }
    if PlaceholderAt(s, k) {
      assert s[1..][k..k + n] == s[k + 1..k + 1 + n];
    }
  }

  /** The names are exactly the texts of the placeholders: non-empty runs of
      word characters enclosed in braces. */
  lemma {:induction false} PlaceholderNamesSpec(s: string)
    ensures forall n :: n in PlaceholderNames(s) <==> exists k :: 0 <= k < |s| && PlaceholderAt(s, k) && NameAt(s, k) == n
    decreases |s|
  {
    if s != [] {
      PlaceholderNamesSpec(s[1..]);
      forall n | n in PlaceholderNames(s)
        ensures exists k :: 0 <= k < |s| && PlaceholderAt(s, k) && NameAt(s, k) == n
      {
        if !(PlaceholderAt(s, 0) && n == NameAt(s, 0)) {
          assert n in PlaceholderNames(s[1..]);
          var k :| 0 <= k < |s[1..]| && PlaceholderAt(s[1..], k) && NameAt(s[1..], k) == n;
          PlaceholderShift(s, k + 1);
        }
      }
      forall n | exists k :: 0 <= k < |s| && PlaceholderAt(s, k) && NameAt(s, k) == n
        ensures n in PlaceholderNames(s)
      {
        var k :| 0 <= k < |s| && PlaceholderAt(s, k) && NameAt(s, k) == n;
        if k > 0 {
          PlaceholderShift(s, k);
        }
      }
    }
  }

  /** The table after the fill: every required name is a key, names that were
      present keep their value, and names that were missing map to `""`. */
  function Filled(vars: Table, required: set<string>): (r: Table)
    ensures r.Keys == vars.Keys + required
    ensures forall k :: k in vars ==> r[k] == vars[k]
    ensures forall k :: k in required && k !in vars ==> r[k] == Text("")
  {
    map k | k in vars.Keys + required :: if k in vars then vars[k] else Text("")
  }

  lemma FilledStep(vars: Table, done: set<string>, v: string)
    requires v !in vars
    ensures Filled(vars, done + {v}) == Filled(vars, done)[v := Text("")]
  {
  }

  lemma FilledMissingOnly(vars: Table, required: set<string>)
    ensures Filled(vars, required - vars.Keys) == Filled(vars, required)
  {
  }

  /** The missing-variable loop of `buildPath`. */
  method FillMissing(vars: Table, required: set<string>) returns (out: Table)
    ensures out == Filled(vars, required)
  {
    var missing := required - vars.Keys;
    ghost var todo := missing;
    out := vars;
    assert out == Filled(vars, {});
    while missing != {}
      invariant missing <= todo
      invariant out == Filled(vars, todo - missing)
      decreases missing
    {
      var v :| v in missing;
      assert out[v := Text("")] == Filled(vars, todo - (missing - {v})) by {
        assert v !in vars;
        FilledStep(vars, todo - missing, v);
        assert (todo - missing) + {v} == todo - (missing - {v});
      }
      out := out[v := Text("")];
      missing := missing - {v};
    }
    assert todo - missing == todo;
    FilledMissingOnly(vars, required);
  }
}

