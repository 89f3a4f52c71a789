/** `buildPath` (main.py:668-745): the explicit variable map, the flattening of
    the metadata into it, the fill of missing placeholders, the rendering of
    the folder template and the path that results, or the fallback path when
    rendering raises. Also the metadata record `process_file` hands to it
    (main.py:477-498). */
module PathBuilder {
  import opened Wrappers
  import opened Text
  import opened Json
  import opened Config
  import opened Sanitizer
  import opened Tags
  import opened Variables
  import opened Format

  /** The outcome of `buildPath`. A path is kept as its joined parts: the
      target directory, the rendered folder (or the user id) and the file
      name. `Raised` is an exception that escapes `buildPath`, which
      `process_file` catches and logs. */
  datatype PathResult =
    | InvalidInfo
    | Raised(error: PyError)
    | Primary(parts: seq<string>)
    | Fallback(parts: seq<string>)
    | UnsupportedTemplate

  /** The thirteen keys the explicit map defines. */
  const ExplicitKeys: set<string> := {
    "id", "title", "user", "user_id", "date", "bmk_1000", "sl", "illustComment",
    "titleCaptionTranslation", "tags", "tags_str", "tags_transl", "tags_transl_only"}

  /** `self.sanitize(v)`: only a string has `replace`. */
  function SanitizeValue(v: Json): (r: Result<string, PyError>)
    ensures r.Ok? <==> v.JStr?
    ensures r.Ok? ==> r.value == Sanitized(v.s)
    ensures r.Err? ==> r.error == AttributeError
  {
    if v.JStr? then Ok(Sanitized(v.s)) else Err(AttributeError)
  }

  /** `date`: empty unless `createDate` is truthy; otherwise `strptime` must
      accept it (`ValueError` if not, `TypeError` for a non-string). */
  function DateText(env: Env, info: seq<Field>): (r: Result<string, PyError>)
    ensures !Truthy(Get(info, "createDate", JNull)) ==> r == Ok("")
    ensures Truthy(Get(info, "createDate", JNull)) && !Get(info, "createDate", JNull).JStr? ==> r == Err(TypeError)
    ensures forall s :: Get(info, "createDate", JNull) == JStr(s) && s != "" ==>
      (r.Ok? <==> env.reformatDate(s).Some?) && (r.Ok? ==> r.value == env.reformatDate(s).value) &&
      (r.Err? ==> r.error == ValueError)
  {
    var created := Get(info, "createDate", JNull);
    if !Truthy(created) then Ok("")
    else if !created.JStr? then Err(TypeError)
    else match env.reformatDate(created.s)
      case None => Err(ValueError)
      case Some(d) => Ok(d)
  }

  /** `str(bookmarkCount // 1000)`; a `bool` counts as 0 or 1, anything else
      that is not an `int` raises `TypeError`. */
  function Thousands(v: Json): Result<string, PyError> {
    match v
    case JInt(n) => Ok(IntToString(n / 1000))
    case JBool(b) => Ok("0")
    case _ => Err(TypeError)
  }

  /** `//` by 1000 rounds toward negative infinity, as Python does. */
  lemma ThousandsIsFloorDivision(n: int)
    ensures exists q :: Thousands(JInt(n)) == Ok(IntToString(q)) && q * 1000 <= n < (q + 1) * 1000
  {
    var q := n / 1000;
    assert Thousands(JInt(n)) == Ok(IntToString(q)) && q * 1000 <= n < (q + 1) * 1000;
  }

  /** The values of the explicit map, before they are keyed. */
  datatype Explicit = Explicit(
    id: string, title: string, user: string, userId: string, date: string, bmk: string,
    sl: string, comment: string, captionTranslation: string, tags: seq<Tag>,
    tagsStr: string, tagsTransl: string, tagsTranslOnly: string)

  /** The explicit map of `buildPath` under its thirteen keys. */
  function ExplicitTable(e: Explicit): (r: Table)
    ensures r.Keys == ExplicitKeys
  {
    map[
      "id" := Text(e.id),
      "title" := Text(e.title),
      "user" := Text(e.user),
      "user_id" := Text(e.userId),
      "date" := Text(e.date),
      "bmk_1000" := Text(e.bmk),
      "sl" := Text(e.sl),
      "illustComment" := Text(e.comment),
      "titleCaptionTranslation" := Text(e.captionTranslation),
      "tags" := TagList(e.tags),
      "tags_str" := Text(e.tagsStr),
      "tags_transl" := Text(e.tagsTransl),
      "tags_transl_only" := Text(e.tagsTranslOnly)]
  }

  /** The two entries the path is built from. */
  lemma ExplicitTableIds(e: Explicit)
    ensures ExplicitTable(e)["id"] == Text(e.id) && ExplicitTable(e)["user_id"] == Text(e.userId)
  {
  }

  /** The explicit values of `buildPath`, evaluated in order; the first
      exception escapes. */
  function ExplicitVariables(env: Env, cfg: Config, info: seq<Field>, processed: seq<Tag>): (r: Result<Explicit, PyError>)
    ensures r.Ok? ==> r.value.id == PyStr(env, Get(info, "illustId", JStr("")))
    ensures r.Ok? ==> r.value.userId == PyStr(env, Get(info, "userId", JStr("")))
  {
    var sep := cfg.tagSeparator;
    var title :- SanitizeValue(Get(info, "illustTitle", JStr("无标题")));
    var user :- SanitizeValue(Get(info, "userName", JStr("未知用户")));
    var date :- DateText(env, info);
    var bmk :- Thousands(Get(info, "bookmarkCount", JInt(0)));
    var transl :- TagsTransl(env, sep, processed);
    var translOnly :- TagsTranslOnly(sep, processed);
    Ok(Explicit(
      PyStr(env, Get(info, "illustId", JStr(""))), title, user, PyStr(env, Get(info, "userId", JStr(""))),
      date, bmk, PyStr(env, Get(info, "sl", JStr(""))), PyStr(env, Get(info, "illustComment", JStr(""))),
      env.dumps(Get(info, "titleCaptionTranslation", JObj([]))), processed,
      TagsStr(sep, processed), transl, translOnly))
  }

  /** The explicit values and when computing them raises: a title or user name
      that is not a string (`sanitize` needs `replace`), an unparsable date, a
      non-integer bookmark count, a translation that is not a mapping. */
  lemma ExplicitVariablesSpec(env: Env, cfg: Config, info: seq<Field>, processed: seq<Tag>)
    ensures var r := ExplicitVariables(env, cfg, info, processed);
      r.Ok? <==>
        Get(info, "illustTitle", JStr("无标题")).JStr? && Get(info, "userName", JStr("未知用户")).JStr? &&
        DateText(env, info).Ok? && Thousands(Get(info, "bookmarkCount", JInt(0))).Ok? &&
        TagsTransl(env, cfg.tagSeparator, processed).Ok? && TagsTranslOnly(cfg.tagSeparator, processed).Ok?
    ensures var r := ExplicitVariables(env, cfg, info, processed);
      !Get(info, "illustTitle", JStr("无标题")).JStr? ==> r == Err(AttributeError)
    ensures var r := ExplicitVariables(env, cfg, info, processed);
      r.Ok? ==>
        r.value.id == PyStr(env, Get(info, "illustId", JStr(""))) &&
        r.value.title == Sanitized(Get(info, "illustTitle", JStr("无标题")).s) &&
        r.value.user == Sanitized(Get(info, "userName", JStr("未知用户")).s) &&
        r.value.userId == PyStr(env, Get(info, "userId", JStr(""))) &&
        r.value.date == DateText(env, info).value &&
        r.value.tags == processed &&
        r.value.tagsStr == Join(cfg.tagSeparator, Labels(processed))
  {
  }

  /** The table the template is rendered with: the explicit map, the
      flattened metadata and `""` for every missing placeholder. Its `id` and
      `user_id` are the explicit ones: the flattening can store neither (`id`
      has no `_`, and `user_id` could only come from an entry whose own key is
      `id`, which is skipped). */
  function TemplateTable(env: Env, cfg: Config, info: seq<Field>, values: Explicit): (vars: Table)
    ensures "id" in vars && vars["id"] == Text(values.id)
    ensures "user_id" in vars && vars["user_id"] == Text(values.userId)
  {
    var explicit := ExplicitTable(values);
    ExplicitTableIds(values);
    ExplicitIdsKept(env, explicit, info);
    Filled(AddNested(env, explicit, info, ""), PlaceholderNames(cfg.folderStructure))
  }

  lemma ExplicitIdsKept(env: Env, explicit: Table, info: seq<Field>)
    requires "id" in explicit && "user_id" in explicit
    ensures var flat := AddNested(env, explicit, info, "");
      "id" in flat && flat["id"] == explicit["id"] && "user_id" in flat && flat["user_id"] == explicit["user_id"]
  {
    assert '_' !in "id";
    UnderscoreFreeKeysKept(env, explicit, info, "", "id");
    var k := "user_id";
    forall i | 0 < i < |k| && k[i] == '_'
      ensures k[i + 1..] in explicit
    {
      assert i == 4;
      assert k[5..] == "id";
    }
    KeptWhenEverySuffixKnown(env, explicit, info, "", k);
  }

  /** The path for a rendering of the folder template. */
  function Assemble(cfg: Config, rendering: Rendering, id: string, userId: string, ext: string): PathResult {
    match rendering
    case Rendered(folder) => Primary([cfg.targetDir, folder, id + ext])
    case FormatError => Fallback([cfg.targetDir, userId, id + ext])
    case Unsupported => UnsupportedTemplate
  }

  /** What `buildPath(illust_info, file_ext)` does. */
  function BuildPathSpec(env: Env, cfg: Config, info: Json, ext: string): PathResult {
    if !info.JObj? || info.fields == [] then InvalidInfo
    else
      var processed := ProcessedTags(env, Get(info.fields, "tags", JObj([])));
      match ExplicitVariables(env, cfg, info.fields, processed)
      case Err(e) => Raised(e)
      case Ok(values) =>
        var vars := TemplateTable(env, cfg, info.fields, values);
        Assemble(cfg, Render(env, vars, cfg.folderStructure), ValueText(env, vars["id"]),
          ValueText(env, vars["user_id"]), ext)
  }

  /** `buildPath`: the same steps on the loop-based operations; the sanitized
      folder path is computed and thrown away, as in the source. */
  method BuildPath(env: Env, cfg: Config, info: Json, ext: string) returns (r: PathResult)
    ensures r == BuildPathSpec(env, cfg, info, ext)
  {
    if !info.JObj? || info.fields == [] {
      return InvalidInfo;
    }
    var processed := ProcessTagsData(env, Get(info.fields, "tags", JObj([])));
    var explicit := ExplicitVariables(env, cfg, info.fields, processed);
    if explicit.Err? {
      return Raised(explicit.error);
    }
    var table := ExplicitTable(explicit.value);
    var vars := AddNestedFields(env, table, info.fields, "");
    vars := FillMissing(vars, PlaceholderNames(cfg.folderStructure));
    assert vars == TemplateTable(env, cfg, info.fields, explicit.value);
    var filename := ValueText(env, vars["id"]) + ext;
    var rendering := Render(env, vars, cfg.folderStructure);
    match rendering
    case Rendered(folder) =>
      var _ := Sanitize(folder);
      r := Primary([cfg.targetDir, folder, filename]);
    case FormatError =>
      r := Fallback([cfg.targetDir, ValueText(env, vars["user_id"]), filename]);
    case Unsupported =>
      r := UnsupportedTemplate;
  }

  /** `buildPath` refuses exactly a non-mapping or empty record, and raises
      exactly when the explicit map does. */
  lemma BuildPathOutcomes(env: Env, cfg: Config, info: Json, ext: string)
    ensures BuildPathSpec(env, cfg, info, ext) == InvalidInfo <==> !info.JObj? || info.fields == []
    ensures info.JObj? && info.fields != [] ==>
      (BuildPathSpec(env, cfg, info, ext).Raised? <==>
        ExplicitVariables(env, cfg, info.fields, ProcessedTags(env, Get(info.fields, "tags", JObj([])))).Err?)
  {
  }

  /** The file name is `str(illustId)` followed by the extension, and the
      fallback path is the target directory, `str(userId)` and that file
      name, whatever the flattening stored. */
  lemma PathNamesComeFromExplicitMap(env: Env, cfg: Config, info: Json, ext: string)
    requires info.JObj?
    ensures var p := BuildPathSpec(env, cfg, info, ext);
      (p.Primary? || p.Fallback?) ==>
        |p.parts| == 3 && p.parts[0] == cfg.targetDir &&
        p.parts[2] == PyStr(env, Get(info.fields, "illustId", JStr(""))) + ext
    ensures var p := BuildPathSpec(env, cfg, info, ext);
      p.Fallback? ==> p.parts[1] == PyStr(env, Get(info.fields, "userId", JStr("")))
  {
    if info.fields != [] {
      var ev := ExplicitVariables(env, cfg, info.fields, ProcessedTags(env, Get(info.fields, "tags", JObj([]))));
      if ev.Ok? {
        var vars := TemplateTable(env, cfg, info.fields, ev.value);
        assert BuildPathSpec(env, cfg, info, ext)
          == Assemble(cfg, Render(env, vars, cfg.folderStructure), ev.value.id, ev.value.userId, ext);
      }
    }
  }

  /** The folder part is the rendered template as it stands: the sanitized
      copy is discarded, so a `:` in the template reaches the path although
      `sanitize` would have replaced it. */
  lemma FolderIsNotSanitized(env: Env, cfg: Config, info: Json, ext: string)
    requires cfg.folderStructure == "a:b"
    ensures (info.JObj? && info.fields != [] &&
             ExplicitVariables(env, cfg, info.fields, ProcessedTags(env, Get(info.fields, "tags", JObj([])))).Ok?) ==>
      BuildPathSpec(env, cfg, info, ext).Primary? && BuildPathSpec(env, cfg, info, ext).parts[1] == "a:b"
    ensures Sanitized("a:b") != "a:b"
  {
    if info.JObj? && info.fields != [] {
      var r := ExplicitVariables(env, cfg, info.fields, ProcessedTags(env, Get(info.fields, "tags", JObj([]))));
      if r.Ok? {
        RenderLiteralColon(env, TemplateTable(env, cfg, info.fields, r.value));
      }
    }
    SanitizedIsClean("a:b");
    assert "a:b"[1] in IllegalChars;
  }

  lemma RenderLiteralColon(env: Env, vars: Table)
    ensures Render(env, vars, "a:b") == Rendered("a:b")
  {
    assert "a:b"[1..] == ":b" && ":b"[1..] == "b" && "b"[1..] == [];
  }

  // ---------------------------------------------------------------------------
  // The record `process_file` builds

  /** The metadata `process_file` passes to `buildPath`: title and user name
      coerced with `str()`, the tag list re-wrapped, everything else
      copied. */
  function ProcessFileRecord(env: Env, illustId: string, info: seq<Field>): (r: seq<Field>)
    ensures |r| == 7
  {
    var tagsData := Get(info, "tags", JObj([]));
    var tagsList := if tagsData.JObj? then Get(tagsData.fields, "tags", JList([])) else JList([]);
    [Field("illustId", JStr(illustId)),
     Field("illustTitle", JStr(PyStr(env, Get(info, "illustTitle", JStr("无标题"))))),
     Field("userName", JStr(PyStr(env, Get(info, "userName", JStr("未知用户"))))),
     Field("userId", JStr(PyStr(env, Get(info, "userId", JStr(""))))),
     Field("createDate", Get(info, "createDate", JStr(""))),
     Field("bookmarkCount", Get(info, "bookmarkCount", JInt(0))),
     Field("tags", JObj([Field("tags", if tagsList.JList? then tagsList else JList([]))]))]
  }

  /** No stored key of a field's leaves is `k`, given that the field's key is
      not `k` and `k` does not extend it with `_`. */
  lemma FieldAvoids(f: Field, k: string)
    requires f.key != "" && f.key != k && !StartsWith(k, f.key + "_")
    ensures forall j :: 0 <= j < |Leaves([f], "")| ==>
      FullKey(Leaves([f], "")[j].prefix, Leaves([f], "")[j].key) != k
  {
    var ls := Leaves([f], "");
    assert [f][1..] == [] && [f][0] == f;
    assert FullKey("", f.key) == f.key;
    if f.val.JObj? {
      assert ls == Leaves(f.val.fields, f.key) + Leaves([], "");
      StoredKeysUnderPrefix(f.val.fields, f.key);
    } else {
      assert ls == [Leaf("", f.key, f.val)] + Leaves([], "");
    }
  }

  lemma {:induction false} LeavesConcat(a: seq<Field>, b: seq<Field>, prefix: string)
    ensures Leaves(a + b, prefix) == Leaves(a, prefix) + Leaves(b, prefix)
    decreases |a|
  {
    if a == [] {
      assert a + b == b;
    } else {
      assert (a + b)[0] == a[0] && (a + b)[1..] == a[1..] + b;
      LeavesConcat(a[1..], b, prefix);
    }
  }

  /** A field cannot disturb key `k` of `vars`: either nothing it holds is
      stored under `k`, or every value it holds has an own key already in
      `vars` and is skipped. */
  predicate FieldSafeFor(vars: Table, f: Field, k: string) {
    (f.key != "" && f.key != k && !StartsWith(k, f.key + "_")) ||
    (forall j :: 0 <= j < |Leaves([f], "")| ==> Leaves([f], "")[j].key in vars)
  }

  lemma SafeFieldKeeps(env: Env, vars: Table, f: Field, k: string)
    requires k in vars && FieldSafeFor(vars, f, k)
    ensures var r := AddNested(env, vars, [f], "");
      vars.Keys <= r.Keys && r[k] == vars[k]
  {
    AddNestedIsApply(env, vars, [f], "");
    ApplyEffect(env, vars, Leaves([f], ""));
    if f.key != "" && f.key != k && !StartsWith(k, f.key + "_") {
      FieldAvoids(f, k);
    }
    ApplyKeeps(env, vars, Leaves([f], ""), k);
  }

  /** At the top level the fields are flattened one after the other, so a key
      every field is safe for keeps its value. */
  lemma {:induction false} KeptWhenFieldsSafe(env: Env, vars: Table, source: seq<Field>, k: string)
    requires k in vars
    requires forall i :: 0 <= i < |source| ==> FieldSafeFor(vars, source[i], k)
    ensures k in AddNested(env, vars, source, "") && AddNested(env, vars, source, "")[k] == vars[k]
    decreases |source|
  {
    if source != [] {
      var f := source[0];
      var v1 := AddNested(env, vars, [f], "");
      assert [f][1..] == [] && [f][0] == f;
      var full := FullKey("", f.key);
      var next :=
        if f.val.JObj? then AddNested(env, vars, f.val.fields, full)
        else if f.key in vars then vars
        else vars[full := Text(LeafText(env, f.val))];
      assert v1 == AddNested(env, next, [], "");
      assert AddNested(env, vars, source, "") == AddNested(env, v1, source[1..], "");
      SafeFieldKeeps(env, vars, f, k);
      forall i | 0 <= i < |source[1..]|
        ensures FieldSafeFor(v1, source[1..][i], k)
      {
        assert source[1..][i] == source[i + 1];
        assert FieldSafeFor(vars, source[i + 1], k);
      }
      KeptWhenFieldsSafe(env, v1, source[1..], k);
    }
  }

  /** The record keys `process_file` uses are not explicit keys and do not
      begin any explicit key followed by `_`. */
  lemma RecordKeyAvoids(key: string, k: string)
    requires key in ["illustId", "illustTitle", "userName", "userId", "createDate", "bookmarkCount"]
    requires k in ExplicitKeys
    ensures key != "" && key != k && !StartsWith(k, key + "_")
  {
    var i := if |key| < |k| && k[|key|] == '_' then 0 else |key|;
    DiffersAt(k, key + "_", i);
  }

  /** The `tags` entry of the record holds a single value, under the own key
      `tags`. */
  lemma TagsFieldLeaves(list: Json)
    requires !list.JObj?
    ensures Leaves([Field("tags", JObj([Field("tags", list)]))], "") == [Leaf("tags", "tags", list)]
  {
    var f := Field("tags", JObj([Field("tags", list)]));
    assert [f][1..] == [] && [f][0] == f;
    assert FullKey("", "tags") == "tags";
    var g := Field("tags", list);
    assert [g][1..] == [] && [g][0] == g;
    assert Leaves([g], "tags") == [Leaf("tags", "tags", list)] + Leaves([], "tags");
  }

  /** The record `process_file` hands to `buildPath` cannot override an
      explicit variable: none of its first six keys begins an explicit key,
      and the tag list it carries sits under the own key `tags`, which is
      explicit and therefore skipped. */
  lemma ProcessFileKeepsExplicit(env: Env, illustId: string, info: seq<Field>, values: Explicit, k: string)
    requires k in ExplicitKeys
    ensures var explicit := ExplicitTable(values);
      var flat := AddNested(env, explicit, ProcessFileRecord(env, illustId, info), "");
      k in flat && flat[k] == explicit[k]
  {
    var explicit := ExplicitTable(values);
    var rec := ProcessFileRecord(env, illustId, info);
    forall i | 0 <= i < |rec|
      ensures FieldSafeFor(explicit, rec[i], k)
    {
      if i < 6 {
        RecordKeyAvoids(rec[i].key, k);
      } else {
        TagsFieldLeaves(rec[6].val.fields[0].val);
        assert "tags" in explicit;
      }
    }
    KeptWhenFieldsSafe(env, explicit, rec, k);
  }

  /** So for a file `process_file` organises, every explicit variable reaches
      the template exactly as computed. */
  lemma ProcessFileTemplateTable(env: Env, cfg: Config, illustId: string, info: seq<Field>, values: Explicit, k: string)
    requires k in ExplicitKeys
    ensures var vars := TemplateTable(env, cfg, ProcessFileRecord(env, illustId, info), values);
      k in vars && vars[k] == ExplicitTable(values)[k]
  {
    ProcessFileKeepsExplicit(env, illustId, info, values, k);
  }
}
